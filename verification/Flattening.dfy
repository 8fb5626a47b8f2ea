/** Concatenation of a list of sequences. */
module Flattening {
  function Flatten<T>(parts: seq<seq<T>>): seq<T> {
    if parts == [] then [] else parts[0] + Flatten(parts[1..])
  }

  lemma {:induction false} FlattenAppend<T>(parts: seq<seq<T>>, part: seq<T>)
    ensures Flatten(parts + [part]) == Flatten(parts) + part
  {
    if parts == [] {
      assert Flatten([part]) == part + Flatten([]);
    } else {
      FlattenAppend(parts[1..], part);
      assert (parts + [part])[1..] == parts[1..] + [part];
    }
  }

  lemma FlattenCons<T>(parts: seq<seq<T>>, rest: seq<T>)
    requires parts != []
    ensures Flatten(parts) + rest == parts[0] + (Flatten(parts[1..]) + rest)
  {
  }

  lemma MoveFirst<T>(acc: seq<T>, s: seq<T>)
    requires s != []
    ensures acc + [s[0]] + s[1..] == acc + s
  {
  }
}
