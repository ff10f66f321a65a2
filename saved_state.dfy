/*
 * The parcel form of TwoWayAbsListView.SavedState: writeToParcel appends
 * selectedId and firstId as 64-bit longs, then viewTop, position and
 * height as 32-bit ints; the parcel constructor reads them back in the
 * same order. A parcel stores each value in little-endian two's
 * complement, an int in 4 bytes and a long in 8. Reading past the end of
 * the data yields 0 and does not advance, as the platform's Parcel does.
 */
module SavedStateParcel {
  import opened JavaLang

  type Byte = b: int | 0 <= b < 256

  datatype SavedState = SavedState(selectedId: int, firstId: int, viewTop: int, position: int, height: int)

  /** Every field fits its Java type: two longs and three ints. */
  predicate WellTyped(ss: SavedState) {
    IsLong(ss.selectedId) && IsLong(ss.firstId)
    && IsInt(ss.viewTop) && IsInt(ss.position) && IsInt(ss.height)
  }

  function Pow256(n: nat): (p: nat)
    ensures p >= 1
  {
    if n == 0 then 1 else 256 * Pow256(n - 1)
  }

  /** The values `n` bytes of two's complement hold are those in [-HalfRange(n), HalfRange(n)). */
  function HalfRange(n: nat): int { Pow256(n) / 2 }

  /** The `n` low base-256 digits of `u`, least significant first. */
  function LittleEndian(u: nat, n: nat): (r: seq<Byte>)
    ensures |r| == n
  {
    if n == 0 then [] else [u % 256] + LittleEndian(u / 256, n - 1)
  }

  function FromLittleEndian(bs: seq<Byte>): (u: nat)
    ensures u < Pow256(|bs|)
  {
    if bs == [] then 0 else bs[0] + 256 * FromLittleEndian(bs[1..])
  }

  /** Two's complement in `n` bytes of a value that fits them. */
  function Encode(x: int, n: nat): (r: seq<Byte>)
    requires n >= 1 && -HalfRange(n) <= x < HalfRange(n)
    ensures |r| == n
  {
    LittleEndian(if x < 0 then x + Pow256(n) else x, n)
  }

  function Decode(bs: seq<Byte>): int {
    var u := FromLittleEndian(bs);
    if u >= Pow256(|bs|) / 2 then u - Pow256(|bs|) else u
  }

  lemma {:induction false} LittleEndianRoundTrip(u: nat, n: nat)
    requires u < Pow256(n)
    ensures FromLittleEndian(LittleEndian(u, n)) == u
  {
    if n > 0 {
      LittleEndianRoundTrip(u / 256, n - 1);
      assert LittleEndian(u, n)[1..] == LittleEndian(u / 256, n - 1);
    }
  }

  /** Decoding the two's complement bytes of a value gives the value back. */
  lemma EncodeRoundTrip(x: int, n: nat)
    requires n >= 1 && -HalfRange(n) <= x < HalfRange(n)
    ensures Decode(Encode(x, n)) == x
  {
    LittleEndianRoundTrip(if x < 0 then x + Pow256(n) else x, n);
  }

  function WriteInt(out: seq<Byte>, x: int): (r: seq<Byte>)
    requires IsInt(x)
  {
    out + Encode(x, 4)
  }

  function WriteLong(out: seq<Byte>, x: int): (r: seq<Byte>)
    requires IsLong(x)
  {
    out + Encode(x, 8)
  }

  /** The value of `width` bytes at `pos` and the position after them; 0 and `pos` when too few remain. */
  function ReadValue(data: seq<Byte>, pos: nat, width: nat): (int, nat)
  {
    if pos + width <= |data| then (Decode(data[pos..pos + width]), pos + width) else (0, pos)
  }

  /** writeToParcel: the five fields appended after what is already in the parcel. */
  function WriteToParcel(out: seq<Byte>, ss: SavedState): (r: seq<Byte>)
    requires WellTyped(ss)
    ensures |r| == |out| + 28 && r[..|out|] == out
  {
    var p := WriteLong(out, ss.selectedId);
    var p := WriteLong(p, ss.firstId);
    var p := WriteInt(p, ss.viewTop);
    var p := WriteInt(p, ss.position);
    WriteInt(p, ss.height)
  }

  /** The parcel constructor: the five fields read from `pos` on, and where reading stopped. */
  function CreateFromParcel(data: seq<Byte>, pos: nat): (SavedState, nat)
  {
    var (selectedId, p) := ReadValue(data, pos, 8);
    var (firstId, p) := ReadValue(data, p, 8);
    var (viewTop, p) := ReadValue(data, p, 4);
    var (position, p) := ReadValue(data, p, 4);
    var (height, p) := ReadValue(data, p, 4);
    (SavedState(selectedId, firstId, viewTop, position, height), p)
  }

  lemma ReadBack(data: seq<Byte>, pos: nat, x: int, width: nat)
    requires width >= 1 && -HalfRange(width) <= x < HalfRange(width)
    requires pos + width <= |data| && data[pos..pos + width] == Encode(x, width)
    ensures ReadValue(data, pos, width) == (x, pos + width)
  {
    EncodeRoundTrip(x, width);
  }

  /**
   * Reading a saved state back from where it was written reproduces all
   * five fields and stops right after them, whatever precedes it and
   * whatever follows it in the parcel.
   */
  lemma {:induction false} SavedStateRoundTrip(prefix: seq<Byte>, ss: SavedState, suffix: seq<Byte>)
    requires WellTyped(ss)
    ensures CreateFromParcel(WriteToParcel(prefix, ss) + suffix, |prefix|) == (ss, |prefix| + 28)
  {
    var data := WriteToParcel(prefix, ss) + suffix;
    var n := |prefix|;
    assert Pow256(4) == 0x1_0000_0000 && Pow256(8) == 0x1_0000_0000_0000_0000 by {
      assert Pow256(2) == 65536;
      assert Pow256(4) == 256 * 256 * Pow256(2);
      assert Pow256(8) == 256 * 256 * 256 * 256 * Pow256(4);
    }
    assert data == prefix + Encode(ss.selectedId, 8) + Encode(ss.firstId, 8)
      + Encode(ss.viewTop, 4) + Encode(ss.position, 4) + Encode(ss.height, 4) + suffix;
    assert data[n..n + 8] == Encode(ss.selectedId, 8);
    ReadBack(data, n, ss.selectedId, 8);
    assert data[n + 8..n + 16] == Encode(ss.firstId, 8);
    ReadBack(data, n + 8, ss.firstId, 8);
    assert data[n + 16..n + 20] == Encode(ss.viewTop, 4);
    ReadBack(data, n + 16, ss.viewTop, 4);
    assert data[n + 20..n + 24] == Encode(ss.position, 4);
    ReadBack(data, n + 20, ss.position, 4);
    assert data[n + 24..n + 28] == Encode(ss.height, 4);
    ReadBack(data, n + 24, ss.height, 4);
  }
}
