/** Frames and limits shared by the protocol modules (pstream/internal/wire, pstream/internal/protocol). */
module Wire {

  type Byte = x: int | 0 <= x < 256

  datatype Option<T> = None | Some(value: T)

  /** The largest value of an unsigned 64-bit byte count. */
  const MAX_BYTE_COUNT: nat := 0xFFFF_FFFF_FFFF_FFFF

  /** The number of unsigned 64-bit words. */
  const WORD: nat := 0x1_0000_0000_0000_0000

  /** A STREAM frame. The payload is a value; a Go frame is a pointer that its owner edits in place. */
  datatype StreamFrame = StreamFrame(
    streamID: nat,
    fin: bool,
    dataLenPresent: bool,
    offset: nat,
    data: seq<Byte>)
  {
    function DataLen(): nat { |data| }

    function End(): nat { offset + |data| }

    /** Length of the encoded header; the whole frame takes MinLength() + DataLen() bytes. */
    function MinLength(): nat {
      1 + StreamIDLength(streamID) + OffsetLength(offset) + (if dataLenPresent then 2 else 0)
    }

    function EncodedLength(): nat { MinLength() + DataLen() }

    /** The frame without its first n bytes. */
    function DropFront(n: nat): StreamFrame
      requires n <= |data|
    {
      this.(data := data[n..], offset := offset + n)
    }

    /** The frame restricted to its first n bytes. */
    function TakeFront(n: nat): StreamFrame
      requires n <= |data|
    {
      this.(data := data[..n])
    }
  }

  lemma CutNothing(f: StreamFrame)
    ensures f.DropFront(0) == f && f.TakeFront(|f.data|) == f
  {
  }

  function StreamIDLength(id: nat): nat {
    if id < 0x100 then 1 else if id < 0x1_0000 then 2 else if id < 0x100_0000 then 3 else 4
  }

  function OffsetLength(offset: nat): nat {
    if offset == 0 then 0
    else if offset < 0x1_0000 then 2
    else if offset < 0x100_0000 then 3
    else if offset < 0x1_0000_0000 then 4
    else if offset < 0x100_0000_0000 then 5
    else if offset < 0x1_0000_0000_0000 then 6
    else if offset < 0x100_0000_0000_0000 then 7
    else 8
  }

  /** The frame carries exactly the bytes of stream that its offset names. */
  ghost predicate Carries(stream: seq<Byte>, f: StreamFrame) {
    f.End() <= |stream| && f.data == stream[f.offset..f.End()]
  }

  lemma AppendNothing<T>(s: seq<T>)
    ensures s + [] == s && [] + s == s
  {
  }

  lemma SliceJoin<T>(s: seq<T>, a: nat, b: nat, c: nat)
    requires a <= b <= c <= |s|
    ensures s[a..b] + s[b..c] == s[a..c]
  {
  }

  lemma SliceOfSlice<T>(s: seq<T>, a: nat, b: nat, c: nat, d: nat)
    requires a <= c <= d <= b <= |s|
    ensures s[a..b][c - a..d - a] == s[c..d]
  {
    forall k | 0 <= k < d - c
      ensures s[a..b][c - a..d - a][k] == s[c..d][k]
    {
      assert s[a..b][c - a + k] == s[c + k];
    }
  }

  predicate Distinct<T(==)>(s: seq<T>) {
    forall i, j :: 0 <= i < j < |s| ==> s[i] != s[j]
  }

  /** The list without its element i. */
  function Without<T>(s: seq<T>, i: nat): seq<T>
    requires i < |s|
  {
    s[..i] + s[i + 1..]
  }

  function Reversed<T>(s: seq<T>): seq<T> {
    if s == [] then [] else [s[|s| - 1]] + Reversed(s[..|s| - 1])
  }

  function Min(a: nat, b: nat): nat { if a < b then a else b }

  function Max(a: nat, b: nat): nat { if a > b then a else b }

  /** A product under a name, so that proofs can leave it alone. */
  function Product(x: int, y: int): (r: int)
    ensures x >= 0 && y >= 0 ==> r >= 0
  {
    x * y
  }
}
