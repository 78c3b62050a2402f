/** Runs of calls on an array of objects, on the flat sequence it stands for. */
module Changes {
  import opened BigArray

  datatype Change<T> = Assign(index: nat, value: T) | Reach(length: nat)

  predicate Possible<T>(change: Change<T>, size: nat) {
    match change
    case Assign(i, _) => i < size
    case Reach(n) => RequiredCapacity(n) < MAX_CAPACITY
  }

  function After<T>(change: Change<T>, s: seq<T>, initialValue: T): seq<T>
    requires Possible(change, |s|)
  {
    match change
    case Assign(i, v) => s[i := v]
    case Reach(n) => Grown(s, n, initialValue)
  }

  predicate AllPossible<T>(changes: seq<Change<T>>, s: seq<T>, initialValue: T) {
    changes == []
    || (Possible(changes[0], |s|) && AllPossible(changes[1..], After(changes[0], s, initialValue), initialValue))
  }

  function AfterAll<T>(changes: seq<Change<T>>, s: seq<T>, initialValue: T): seq<T>
    requires AllPossible(changes, s, initialValue)
  {
    if changes == [] then s else AfterAll(changes[1..], After(changes[0], s, initialValue), initialValue)
  }
}
