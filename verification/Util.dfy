/** Optional results and flattening, used throughout. */
module Util {

  datatype Option<T> = None | Some(value: T)

  /** The parts one behind the other. */
  function Flatten<T>(parts: seq<seq<T>>): seq<T> {
    if parts == [] then [] else parts[0] + Flatten(parts[1..])
  }

  lemma FlattenNone<T>()
    ensures Flatten<T>([]) == []
  {
  }

  lemma FlattenCons<T>(x: seq<T>, more: seq<seq<T>>)
    ensures Flatten([x] + more) == x + Flatten(more)
  {
    assert ([x] + more)[1..] == more;
  }

  lemma {:induction false} FlattenAppend<T>(x: seq<seq<T>>, y: seq<seq<T>>)
    ensures Flatten(x + y) == Flatten(x) + Flatten(y)
  {
    if x == [] {
      assert x + y == y;
    } else {
      assert (x + y)[1..] == x[1..] + y;
      FlattenAppend(x[1..], y);
    }
  }

  lemma FlattenLast<T>(parts: seq<seq<T>>)
    requires parts != []
    ensures Flatten(parts) == Flatten(parts[..|parts| - 1]) + parts[|parts| - 1]
  {
    var n := |parts| - 1;
    assert parts == parts[..n] + [parts[n]];
    FlattenAppend(parts[..n], [parts[n]]);
    FlattenCons(parts[n], []);
  }
}
