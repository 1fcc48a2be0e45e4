/** The usual optional value, standing for the source's null pointers and empty optionals, and
    sequences of them. */
module Wrappers {
  datatype Option<+T> = None | Some(value: T)

  /** The values that are there, in order. */
  function Present<T>(given: seq<Option<T>>): seq<T> {
    if given == [] then []
    else
      var n := |given| - 1;
      Present(given[..n]) + (if given[n].Some? then [given[n].value] else [])
  }

  lemma PresentSnoc<T>(given: seq<Option<T>>, last: Option<T>)
    ensures Present(given + [last]) == Present(given) + (if last.Some? then [last.value] else [])
  {
    assert (given + [last])[..|given|] == given;
  }

  /** `values` are those given at the places `at`, in order, and nowhere else is there one. */
  ghost predicate Located<T(!new)>(given: seq<Option<T>>, values: seq<T>, at: seq<nat>) {
    && |at| == |values|
    && (forall j, k :: 0 <= j < k < |at| ==> at[j] < at[k])
    && (forall j :: 0 <= j < |at| ==> at[j] < |given| && given[at[j]] == Some(values[j]))
    && (forall i: nat :: i < |given| && given[i].Some? ==> i in at)
  }

  lemma LocatedSnoc<T(!new)>(given: seq<Option<T>>, last: Option<T>, values: seq<T>, at: seq<nat>)
    requires Located(given, values, at)
    ensures match last
            case None => Located(given + [last], values, at)
            case Some(v) => Located(given + [last], values + [v], at + [|given|])
  {
    if last.Some? {
      var at' := at + [|given|];
      forall i: nat | i <= |given| && (given + [last])[i].Some? ensures i in at' {
        assert i < |given| ==> i in at;
        assert at'[|at|] == |given|;
      }
    }
  }

  /** Every value comes from a place of its own. */
  lemma {:induction false} Locate<T(!new)>(given: seq<Option<T>>) returns (at: seq<nat>)
    ensures Located(given, Present(given), at)
  {
    at := [];
    if given != [] {
      var n := |given| - 1;
      at := Locate(given[..n]);
      LocatedSnoc(given[..n], given[n], Present(given[..n]), at);
      assert given[..n] + [given[n]] == given;
      if given[n].Some? {
        at := at + [n];
      }
    }
  }
}
