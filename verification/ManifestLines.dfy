/** Line numbers of a manifest: the table of line starts with a binary search, and the count of the
    newlines before an offset that it replaces. */
module ManifestLines {
  import opened HexFields

  const NEWLINE: byte := 10

  function Newlines(content: seq<byte>): nat {
    if content == [] then 0
    else Newlines(content[..|content| - 1]) + (if content[|content| - 1] == 10 then 1 else 0)
  }

  /** The 1-based line holding a byte offset. */
  function LineOf(content: seq<byte>, offset: nat): nat {
    Newlines(content[..if offset < |content| then offset else |content|]) + 1
  }

  /** Zero, and every offset just behind a newline. */
  function Starts(content: seq<byte>): seq<nat> {
    if content == [] then [0]
    else Starts(content[..|content| - 1]) + (if content[|content| - 1] == NEWLINE then [|content|] else [])
  }

  method LineStarts(content: seq<byte>) returns (starts: seq<nat>)
    ensures starts == Starts(content)
  {
    starts := [0];
    for i := 0 to |content|
      invariant starts == Starts(content[..i])
    {
      assert content[..i + 1][..i] == content[..i];
      if content[i] == NEWLINE {
        starts := starts + [i + 1];
      }
    }
    assert content[..|content|] == content;
  }

  /** How many of the starts are at or before the offset, by halving. */
  method Line(starts: seq<nat>, offset: nat) returns (n: nat)
    requires forall i, j :: 0 <= i < j < |starts| ==> starts[i] <= starts[j]
    ensures n <= |starts|
    ensures forall i :: 0 <= i < n ==> starts[i] <= offset
    ensures forall i :: n <= i < |starts| ==> starts[i] > offset
  {
    n := 0;
    var high := |starts|;
    while n < high
      invariant 0 <= n <= high <= |starts|
      invariant forall i :: 0 <= i < n ==> starts[i] <= offset
      invariant forall i :: high <= i < |starts| ==> starts[i] > offset
    {
      var mid := (n + high) / 2;
      if starts[mid] <= offset {
        n := mid + 1;
      } else {
        high := mid;
      }
    }
  }

  /** The starts ascend, and a start is behind each newline. */
  lemma {:induction false} StartsAscend(content: seq<byte>)
    ensures |Starts(content)| == Newlines(content) + 1
    ensures forall i, j :: 0 <= i < j < |Starts(content)| ==> Starts(content)[i] < Starts(content)[j]
    ensures forall i :: 0 <= i < |Starts(content)| ==> Starts(content)[i] <= |content|
  {
    if content != [] {
      StartsAscend(content[..|content| - 1]);
    }
  }

  /** The starts at or before an offset are those of the text before it. */
  lemma {:induction false} StartsBefore(content: seq<byte>, offset: nat)
    requires offset <= |content|
    ensures Starts(content[..offset]) <= Starts(content)
    ensures forall i :: |Starts(content[..offset])| <= i < |Starts(content)| ==> Starts(content)[i] > offset
  {
    if offset == |content| {
      assert content[..offset] == content;
    } else {
      var shorter := content[..|content| - 1];
      StartsBefore(shorter, offset);
      assert shorter[..offset] == content[..offset];
    }
  }

  /** What splits the table at an offset is the number the count of newlines gives, at every offset,
      also one behind the end. */
  lemma LineIsLineOf(content: seq<byte>, offset: nat, n: nat)
    requires n <= |Starts(content)|
    requires forall i :: 0 <= i < n ==> Starts(content)[i] <= offset
    requires forall i :: n <= i < |Starts(content)| ==> Starts(content)[i] > offset
    ensures n == LineOf(content, offset)
  {
    var upto := if offset < |content| then offset else |content|;
    var starts, before := Starts(content), Starts(content[..upto]);
    StartsAscend(content);
    StartsBefore(content, upto);
    StartsAscend(content[..upto]);
    var k := |before|;
    assert starts[k - 1] == before[k - 1] <= offset;
    assert k < |starts| ==> starts[k] > offset;
  }
}
