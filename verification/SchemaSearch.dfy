/**
 Finding the objects the STIX schemas refuse alone, by halves (pipeline/baseline_stix.py:973-1015).

 The validator is a function of the list it is given; an object has a serialized size.
 */
module SchemaSearch {
  import opened Common
  import opened References

  datatype Obj = Obj(id: Id, body: string)

  datatype Item = Item(obj: Obj, size: nat)

  datatype Verdict = Verdict(invalid: bool, errors: seq<string>)

  type Validator = seq<Obj> -> Verdict

  /** An object found, and what is said of it. */
  datatype Failure = Failure(obj: Obj, detail: seq<string>)

  function Objs(items: seq<Item>): (os: seq<Obj>)
    ensures |os| == |items| && forall i | 0 <= i < |items| :: os[i] == items[i].obj
  {
    if items == [] then [] else [items[0].obj] + Objs(items[1..])
  }

  function Weight(items: seq<Item>): nat {
    if items == [] then 0 else Weight(items[..|items| - 1]) + Last(items).size
  }

  /** The messages about the object, its prefix taken off; else all of them. */
  function Detail(id: Id, errors: seq<string>): seq<string> {
    var own := Own(id.text + ": ", errors);
    if own == [] then errors else own
  }

  function Own(prefix: string, errors: seq<string>): seq<string> {
    if errors == [] then []
    else (if prefix <= errors[0] then [errors[0][|prefix|..]] else []) + Own(prefix, errors[1..])
  }

  // ----- Where to cut

  /** The shortest front that weighs at least half, but never all. */
  method Split(items: seq<Item>) returns (middle: nat)
    requires |items| > 1
    ensures 0 < middle < |items|
    ensures forall k | 0 < k < middle :: 2 * Weight(items[..k]) < Weight(items)
    ensures 2 * Weight(items[..middle]) >= Weight(items) || middle == |items| - 1
  {
    var total, running := Weight(items), 0;
    for i := 0 to |items| - 1
      invariant running == Weight(items[..i])
      invariant forall k | 0 < k <= i :: 2 * Weight(items[..k]) < total
    {
      assert items[..i + 1][..i] == items[..i];
      running := running + items[i].size;
      if running * 2 >= total {
        return i + 1;
      }
    }
    return |items| - 1;
  }

  // ----- The search

  ghost predicate RefusedAlone(v: Validator, o: Obj) {
    v([o]).invalid
  }

  /** Every list that holds an object refused alone is refused. */
  ghost predicate Monotone(v: Validator, items: seq<Item>) {
    forall os: seq<Obj>, i | 0 <= i < |items| && items[i].obj in os && RefusedAlone(v, items[i].obj) :: v(os).invalid
  }

  /** `found` are the objects at the places `at`, in order and each once, all refused alone,
      each with what its own validation says of it. */
  ghost predicate Picks(v: Validator, items: seq<Item>, at: seq<nat>, found: seq<Failure>) {
    && |at| == |found| && InOrder(at, |items|)
    && forall k | 0 <= k < |at| :: Tells(v, items[at[k]].obj, found[k])
  }

  /** Places below `n`, each once, in order. */
  ghost predicate InOrder(at: seq<nat>, n: nat) {
    (forall k | 0 <= k < |at| :: at[k] < n) && (forall j, k | 0 <= j < k < |at| :: at[j] < at[k])
  }

  ghost predicate Tells(v: Validator, o: Obj, f: Failure) {
    f.obj == o && RefusedAlone(v, o) && f.detail == Detail(o.id, v([o]).errors)
  }

  /** Every place of an object refused alone is picked. */
  ghost predicate PicksAll(v: Validator, items: seq<Item>, at: seq<nat>) {
    forall i | 0 <= i < |items| && RefusedAlone(v, items[i].obj) :: i in at
  }

  function Shifted(at: seq<nat>, n: nat): (r: seq<nat>)
    ensures |r| == |at| && forall k | 0 <= k < |at| :: r[k] == at[k] + n
  {
    if at == [] then [] else [at[0] + n] + Shifted(at[1..], n)
  }

  lemma PicksBoth(v: Validator, items: seq<Item>, middle: nat, front: seq<nat>, back: seq<nat>,
                  some: seq<Failure>, more: seq<Failure>)
    requires middle <= |items| && Picks(v, items[..middle], front, some) && Picks(v, items[middle..], back, more)
    ensures Picks(v, items, front + Shifted(back, middle), some + more)
  {
    var at, found := front + Shifted(back, middle), some + more;
    InOrderBoth(front, back, middle, |items|);
    forall k | 0 <= k < |at|
      ensures Tells(v, items[at[k]].obj, found[k])
    {
      if k < |front| {
        assert Tells(v, items[..middle][front[k]].obj, some[k]);
      } else {
        assert Tells(v, items[middle..][back[k - |front|]].obj, more[k - |front|]);
      }
    }
  }

  lemma InOrderBoth(front: seq<nat>, back: seq<nat>, middle: nat, n: nat)
    requires middle <= n && InOrder(front, middle) && InOrder(back, n - middle)
    ensures InOrder(front + Shifted(back, middle), n)
  {
  }

  lemma AllOfBoth(v: Validator, items: seq<Item>, middle: nat, front: seq<nat>, back: seq<nat>)
    requires middle <= |items| && PicksAll(v, items[..middle], front) && PicksAll(v, items[middle..], back)
    ensures PicksAll(v, items, front + Shifted(back, middle))
  {
    var at := front + Shifted(back, middle);
    forall i | 0 <= i < |items| && RefusedAlone(v, items[i].obj)
      ensures i in at
    {
      if i < middle {
        assert items[..middle][i] == items[i];
      } else {
        assert items[middle..][i - middle] == items[i];
        var k :| 0 <= k < |back| && back[k] == i - middle;
        assert at[|front| + k] == i;
      }
    }
  }

  /** The lists a search has validated, and what they weigh. */
  function Validated(halves: seq<seq<Item>>): nat {
    if halves == [] then 0 else Validated(halves[..|halves| - 1]) + Weight(Last(halves))
  }

  /** The half is picked from when it is refused; otherwise, and if no list that holds a refused
      object passes, it has none. */
  ghost predicate Searched(v: Validator, half: seq<Item>, at: seq<nat>, found: seq<Failure>) {
    Picks(v, half, at, found) && (Monotone(v, half) ==> PicksAll(v, half, at))
  }

  lemma NothingRefused(v: Validator, half: seq<Item>)
    requires !v(Objs(half)).invalid
    ensures Searched(v, half, [], [])
  {
    forall i | 0 <= i < |half|
      ensures half[i].obj in Objs(half)
    {
      assert Objs(half)[i] == half[i].obj;
    }
  }

  lemma HalvesAreMonotone(v: Validator, items: seq<Item>, middle: nat)
    requires middle <= |items| && Monotone(v, items)
    ensures Monotone(v, items[..middle]) && Monotone(v, items[middle..])
  {
    forall os: seq<Obj>, i | 0 <= i < |items[middle..]| && items[middle..][i].obj in os
                             && RefusedAlone(v, items[middle..][i].obj)
      ensures v(os).invalid
    {
      assert items[middle + i].obj in os;
    }
  }

  class Search {
    const limit: nat
    var spent: nat
    ghost const start: nat
    ghost var halves: seq<seq<Item>>

    ghost predicate Valid()
      reads this
    {
      spent == start + Validated(halves)
    }

    constructor (spent: nat, limit: nat)
      ensures Valid() && this.spent == spent && start == spent && halves == [] && this.limit == limit
    {
      this.spent, this.limit, start, halves := spent, limit, spent, [];
    }

    /** The objects of `items`, a list the schemas refuse, that they refuse alone; None when
        more bytes than the limit would be validated.  What is found is refused alone, each
        object once and in order; and it is all of them when no list that holds one passes. */
    method Bisect(v: Validator, items: seq<Item>, verdict: Verdict)
      returns (found: Option<seq<Failure>>, ghost at: seq<nat>)
      requires Valid() && items != [] && verdict == v(Objs(items)) && verdict.invalid
      modifies this
      ensures Valid() && old(spent) <= spent
      ensures found.Some? ==> Searched(v, items, at, found.value)
      ensures found.Some? ==> spent == old(spent) || spent <= limit
      ensures found.None? ==> spent > limit
      decreases |items|, 0
    {
      if |items| == 1 {
        assert Objs(items) == [items[0].obj];
        at := [0];
        return Some([Failure(items[0].obj, Detail(items[0].obj.id, verdict.errors))]), at;
      }
      var middle := Split(items);
      var front, front' := Half(v, items[..middle]);
      if front.None? {
        return None, [];
      }
      var back, back' := Half(v, items[middle..]);
      if back.None? {
        return None, [];
      }
      PicksBoth(v, items, middle, front', back', front.value, back.value);
      if Monotone(v, items) {
        HalvesAreMonotone(v, items, middle);
        AllOfBoth(v, items, middle, front', back');
      }
      return Some(front.value + back.value), front' + Shifted(back', middle);
    }

    /** Validate one half, and search it if it is refused. */
    method Half(v: Validator, half: seq<Item>) returns (found: Option<seq<Failure>>, ghost at: seq<nat>)
      requires Valid() && half != []
      modifies this
      ensures Valid() && old(spent) <= spent
      ensures found.Some? ==> Searched(v, half, at, found.value) && spent <= limit
      ensures found.None? ==> spent > limit
      decreases |half|, 1
    {
      spent := spent + Weight(half);
      assert (halves + [half])[..|halves|] == halves;
      halves := halves + [half];
      if spent > limit {
        return None, [];
      }
      var one := v(Objs(half));
      if one.invalid {
        found, at := Bisect(v, half, one);
      } else {
        NothingRefused(v, half);
        found, at := Some([]), [];
      }
    }
  }
}
