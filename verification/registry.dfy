/**
 * The processed-file registry of src/main.py: an in-memory set of paths,
 * persisted as a JSON array by `save_processed_files` and read back by
 * `load_processed_files`.
 */
module Registry {
  import opened Wrappers

  /** What the log file holds, as far as loading is concerned: nothing (the
      file does not exist), a JSON array of paths, or something `open` or
      `json.load` raises on (unreadable file, malformed JSON). */
  datatype Store = Missing | Listing(entries: seq<string>) | Unreadable

  /** The exception `load_processed_files` lets through: only
      `FileNotFoundError` is caught. */
  datatype LoadError = LoadRaised

  /** `load_processed_files`: a missing log is an empty registry, a listing
      is read as the set of its entries, anything else raises. */
  function Load(store: Store): (r: Result<set<string>, LoadError>)
    ensures r.Success? <==> !store.Unreadable?
    ensures store.Missing? ==> r.value == {}
    ensures store.Listing? ==> forall x :: x in r.value <==> x in store.entries
  {
    match store
    case Missing => Success({})
    case Listing(xs) => Success(set x | x in xs)
    case Unreadable => Failure(LoadRaised)
  }

  predicate NoDuplicates(xs: seq<string>) {
    forall i, j :: 0 <= i < j < |xs| ==> xs[i] != xs[j]
  }

  /** xs is `list(s)`: every element of s exactly once, in some order. */
  predicate Lists(xs: seq<string>, s: set<string>) {
    (forall x :: x in xs ==> x in s) && (forall x :: x in s ==> x in xs) && NoDuplicates(xs)
  }

  /** `save_processed_files`: `list(processed_files)`, the set's elements in
      whatever order the set yields them. The order is chosen here by `:|`,
      so nothing may depend on it. */
  method Save(s: set<string>) returns (xs: seq<string>)
    ensures Lists(xs, s)
    ensures |xs| == |s|
  {
    xs := [];
    var rest := s;
    while rest != {}
      invariant rest <= s
      invariant forall x :: x in xs <==> x in s && x !in rest
      invariant NoDuplicates(xs)
      invariant |xs| + |rest| == |s|
      decreases rest
    {
      var x :| x in rest;
      xs := xs + [x];
      rest := rest - {x};
    }
  }

  /** Loading what was saved gives back the saved set, whichever order the
      listing took. */
  lemma LoadAfterSave(xs: seq<string>, s: set<string>)
    requires Lists(xs, s)
    ensures Load(Listing(xs)) == Success(s)
  {
    assert (set x | x in xs) == s;
  }

  /** Any two listings of a set load as the same registry. */
  lemma ListingOrderIrrelevant(xs: seq<string>, ys: seq<string>, s: set<string>)
    requires Lists(xs, s) && Lists(ys, s)
    ensures Load(Listing(xs)) == Load(Listing(ys))
  {
    LoadAfterSave(xs, s);
    LoadAfterSave(ys, s);
  }

  /** A listing without duplicates has exactly as many entries as the set it
      loads as. */
  lemma {:induction false} ListingSize(xs: seq<string>, s: set<string>)
    requires Lists(xs, s)
    ensures |xs| == |s|
    decreases |xs|
  {
    if xs != [] {
      var last := xs[|xs| - 1];
      var init := xs[..|xs| - 1];
      assert forall x :: x in init ==> x != last;
      assert forall x :: x in init <==> x in s - {last} by {
        forall x
          ensures x in init <==> x in s - {last}
        {
          if x in s - {last} {
            assert x in xs;
            var k :| 0 <= k < |xs| && xs[k] == x;
            assert k < |xs| - 1;
            assert init[k] == x;
          }
        }
      }
      ListingSize(init, s - {last});
    }
  }
}
