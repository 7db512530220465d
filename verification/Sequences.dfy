/** Concatenating a list of lists. */
module Sequences {

  function Flatten<T>(parts: seq<seq<T>>): seq<T> {
    if parts == [] then [] else Flatten(parts[..|parts| - 1]) + parts[|parts| - 1]
  }

  lemma FlattenAppend<T>(parts: seq<seq<T>>, part: seq<T>)
    ensures Flatten(parts + [part]) == Flatten(parts) + part
  {
    assert (parts + [part])[..|parts|] == parts;
  }

  lemma {:induction false} FlattenHead<T>(parts: seq<seq<T>>)
    requires parts != []
    ensures Flatten(parts) == parts[0] + Flatten(parts[1..])
    decreases |parts|
  {
    var rest := parts[1..];
    if rest == [] {
      assert parts == [] + [parts[0]];
      FlattenAppend([], parts[0]);
    } else {
      var middle, last := rest[..|rest| - 1], rest[|rest| - 1];
      var front := [parts[0]] + middle;
      assert front[1..] == middle && parts == front + [last];
      FlattenHead(front);
      FlattenAppend(front, last);
      Regroup(parts[0], Flatten(middle), last);
    }
  }

  lemma Regroup<T>(a: seq<T>, b: seq<T>, c: seq<T>)
    ensures (a + b) + c == a + (b + c)
  {
  }
}
