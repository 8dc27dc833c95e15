/** Sequence helpers shared by the document base and the MCP settings. */
module Seqs {
  /** The sequence without its element at `i` (`splice(i, 1)`, `delete obj[key]` on an ordered map). */
  function RemoveAt<T>(s: seq<T>, i: nat): (r: seq<T>)
    requires i < |s|
    ensures |r| == |s| - 1
    ensures forall j :: 0 <= j < i ==> r[j] == s[j]
    ensures forall j :: i <= j < |r| ==> r[j] == s[j + 1]
  {
    s[..i] + s[i + 1..]
  }
}
