/** The stored form of a POSIX.1e access control list: a version word followed by
    eight-byte entries, little-endian. */
module AclBlob {

  type Blob = seq<bv8>

  const TAG_USER_OBJ: bv32 := 0x01
  const TAG_USER: bv32 := 0x02
  const TAG_GROUP_OBJ: bv32 := 0x04
  const TAG_GROUP: bv32 := 0x08
  const TAG_MASK: bv32 := 0x10
  const TAG_OTHER: bv32 := 0x20
  const UNDEF_ID: bv32 := 0xffff_ffff
  const VERSION: bv32 := 2

  /** Tag and permissions are 16-bit fields, widened as the code widens them. */
  datatype Entry = Entry(tag: bv32, perm: bv32, id: bv32)

  function Word16(lo: bv8, hi: bv8): bv32 {
    (lo as bv32) | ((hi as bv32) << 8)
  }

  function Word32(a: bv8, b: bv8, c: bv8, d: bv8): bv32 {
    Word16(a, b) | (Word16(c, d) << 16)
  }

  /** Whole entries that follow the version word. */
  function Count(b: Blob): nat {
    if |b| < 4 then 0 else (|b| - 4) / 8
  }

  function EntryAt(b: Blob, i: nat): Entry
    requires i < Count(b)
  {
    var o := 4 + 8 * i;
    Entry(Word16(b[o], b[o + 1]), Word16(b[o + 2], b[o + 3]), Word32(b[o + 4], b[o + 5], b[o + 6], b[o + 7]))
  }

  function Decode(b: Blob): (e: seq<Entry>)
    ensures |e| == Count(b) && forall i :: 0 <= i < |e| ==> e[i] == EntryAt(b, i)
  {
    seq(Count(b), i requires 0 <= i < Count(b) => EntryAt(b, i))
  }

  // ---- the stored form, written out ----

  function Bytes16(w: bv32): Blob { [(w & 0xff) as bv8, ((w >> 8) & 0xff) as bv8] }

  function Bytes32(w: bv32): Blob { Bytes16(w) + Bytes16(w >> 16) }

  function EncodeEntry(e: Entry): (b: Blob)
    ensures |b| == 8
  {
    Bytes16(e.tag) + Bytes16(e.perm) + Bytes32(e.id)
  }

  function Encode(es: seq<Entry>): (b: Blob)
    ensures |b| == 8 * |es|
  {
    if es == [] then [] else Encode(es[..|es| - 1]) + EncodeEntry(es[|es| - 1])
  }

  lemma {:induction false} EncodedAt(es: seq<Entry>, i: nat)
    requires i < |es|
    ensures Encode(es)[8 * i..8 * i + 8] == EncodeEntry(es[i])
  {
    hide EncodeEntry;
    var k := |es| - 1;
    if i < k {
      EncodedAt(es[..k], i);
      assert Encode(es)[8 * i..8 * i + 8] == Encode(es[..k])[8 * i..8 * i + 8];
    }
  }

  lemma WordBytes(w: bv32)
    ensures w <= 0xffff ==> Word16(Bytes16(w)[0], Bytes16(w)[1]) == w
    ensures var b := Bytes32(w); Word32(b[0], b[1], b[2], b[3]) == w
  {
  }

  lemma BytesWord(a: bv8, b: bv8, c: bv8, d: bv8)
    ensures Bytes16(Word16(a, b)) == [a, b] && Bytes32(Word32(a, b, c, d)) == [a, b, c, d]
  {
  }

  predicate Narrow(e: Entry) { e.tag <= 0xffff && e.perm <= 0xffff }

  lemma EncodedBytes(e: Entry)
    ensures var b := EncodeEntry(e);
      && Word16(b[0], b[1]) == Word16(Bytes16(e.tag)[0], Bytes16(e.tag)[1])
      && Word16(b[2], b[3]) == Word16(Bytes16(e.perm)[0], Bytes16(e.perm)[1])
      && var id := Bytes32(e.id); Word32(b[4], b[5], b[6], b[7]) == Word32(id[0], id[1], id[2], id[3])
  {
    assert |Bytes16(e.tag)| == 2 && |Bytes16(e.perm)| == 2 && |Bytes32(e.id)| == 4;
    hide Word16, Word32, Bytes16, Bytes32;
  }

  lemma DecodeOne(b: Blob, i: nat, e: Entry)
    requires i < Count(b) && Narrow(e) && b[4 + 8 * i..12 + 8 * i] == EncodeEntry(e)
    ensures EntryAt(b, i) == e
  {
    var o, x := 4 + 8 * i, EncodeEntry(e);
    EncodedBytes(e);
    WordBytes(e.tag);
    WordBytes(e.perm);
    WordBytes(e.id);
    hide Word16, Word32, Bytes16, Bytes32, EncodeEntry;
    forall k | 0 <= k < 8 ensures b[o + k] == x[k] { assert b[4 + 8 * i..12 + 8 * i][k] == b[o + k]; }
    assert b[o] == x[0] && b[o + 1] == x[1] && b[o + 2] == x[2] && b[o + 3] == x[3];
    assert b[o + 4] == x[4] && b[o + 5] == x[5] && b[o + 6] == x[6] && b[o + 7] == x[7];
  }

  lemma BehindHead(head: Blob, x: Blob, i: nat)
    requires |head| == 4 && 8 * i + 8 <= |x|
    ensures (head + x)[4 + 8 * i..12 + 8 * i] == x[8 * i..8 * i + 8]
  {
  }

  /** Every list of entries is read back from its stored form ... */
  lemma DecodeEncode(head: Blob, es: seq<Entry>)
    requires |head| == 4 && forall i :: 0 <= i < |es| ==> Narrow(es[i])
    ensures Decode(head + Encode(es)) == es
  {
    var b := head + Encode(es);
    CountIs(b, |es|);
    hide *;
    forall i | 0 <= i < |es| ensures Decode(b)[i] == es[i] {
      EncodedAt(es, i);
      BehindHead(head, Encode(es), i);
      DecodeOne(b, i, es[i]);
    }
    assert |Decode(b)| == |es|;
  }

  lemma CountIs(b: Blob, n: nat)
    requires |b| == 4 + 8 * n
    ensures Count(b) == n
  {
  }

  /** ... and every blob of whole entries is the stored form of what is read from it. */
  lemma EncodeDecode(b: Blob)
    requires |b| >= 4 && (|b| - 4) % 8 == 0
    ensures b == b[..4] + Encode(Decode(b))
  {
    hide Encode, EncodeEntry, EntryAt, Word16, Word32, Bytes16, Bytes32;
    var es := Decode(b);
    forall k | 4 <= k < |b| ensures b[k] == Encode(es)[k - 4] {
      var i, r := (k - 4) / 8, (k - 4) % 8;
      EncodedAt(es, i);
      EntryBytes(b, i);
      assert Encode(es)[8 * i..8 * i + 8][r] == Encode(es)[k - 4];
      assert b[4 + 8 * i..12 + 8 * i][r] == b[k];
    }
  }

  lemma EntryBytes(b: Blob, i: nat)
    requires i < Count(b)
    ensures EncodeEntry(EntryAt(b, i)) == b[4 + 8 * i..12 + 8 * i]
  {
    var o := 4 + 8 * i;
    BytesWord(b[o], b[o + 1], b[o + 2], b[o + 3]);
    BytesWord(b[o + 2], b[o + 3], b[o + 4], b[o + 5]);
    BytesWord(b[o + 4], b[o + 5], b[o + 6], b[o + 7]);
    hide Word16, Word32, Bytes16, Bytes32;
    EightBytes(b[o..o + 8]);
  }

  lemma EightBytes(x: Blob)
    requires |x| == 8
    ensures x == [x[0], x[1]] + [x[2], x[3]] + [x[4], x[5], x[6], x[7]]
  {
  }

  /** Rewrites the permission field of entry `i`. */
  function SetPerm(b: Blob, i: nat, p: bv32): (r: Blob)
    requires i < Count(b)
    ensures |r| == |b| && r[..4] == b[..4]
  {
    var o := 4 + 8 * i;
    b[o + 2 := (p & 0xff) as bv8][o + 3 := ((p >> 8) & 0xff) as bv8]
  }

  lemma Word16Split(p: bv32)
    requires p <= 0xffff
    ensures Word16((p & 0xff) as bv8, ((p >> 8) & 0xff) as bv8) == p
  {
  }

  /** A rewrite changes one permission field and nothing else. */
  lemma SetPermDecode(b: Blob, i: nat, p: bv32)
    requires i < Count(b) && p <= 0xffff
    ensures Decode(SetPerm(b, i, p)) == Decode(b)[i := EntryAt(b, i).(perm := p)]
  {
    var r, o := SetPerm(b, i, p), 4 + 8 * i;
    Word16Split(p);
    forall k | 0 <= k < Count(b) ensures Decode(r)[k] == Decode(b)[i := EntryAt(b, i).(perm := p)][k] {
      if k < i {
        assert 4 + 8 * k + 7 < o;
      } else if k > i {
        assert 4 + 8 * k > o + 3;
      }
    }
  }
}
