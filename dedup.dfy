/**
 * The posted-alert dedup store: a Python `set` of alert-id strings.  It is
 * loaded once from a JSON list keeping only the list's last 500 entries,
 * grows by `add` without any eviction, and is written back as `list(set)`,
 * whose order Python leaves unspecified.
 */
module Dedup {
  import opened Wrappers

  /** How many entries of the persisted list are kept on load. */
  const KeptOnLoad: nat := 500

  /** Python's `data[-n:]` for `n > 0`: the last `n` entries, or all of them. */
  function LastN<T>(data: seq<T>, n: nat): (r: seq<T>)
    requires n > 0
    ensures |r| == if |data| <= n then |data| else n
    ensures r == data[|data| - |r|..]
  {
    if |data| <= n then data else data[|data| - n..]
  }

  /** `set(data)`: the elements of a list. */
  function ElementsOf(data: seq<string>): (r: set<string>)
    ensures forall x :: x in r <==> x in data
    ensures |r| <= |data|
    decreases |data|
  {
    if data == [] then {}
    else
      var front := ElementsOf(data[..|data| - 1]);
      assert forall x :: x in data <==> x in data[..|data| - 1] || x == data[|data| - 1];
      front + {data[|data| - 1]}
  }

  /** A list without repeats has as many elements as entries. */
  lemma {:induction false} ElementsOfDistinct(data: seq<string>)
    requires Distinct(data)
    ensures |ElementsOf(data)| == |data|
    decreases |data|
  {
    if data != [] {
      var front := data[..|data| - 1];
      assert Distinct(front);
      ElementsOfDistinct(front);
      assert data[|data| - 1] !in front;
    }
  }

  /** `load_posted_alerts`: `persisted` is the parsed JSON list, or `None`
      when the file is missing or reading or decoding it fails. */
  function LoadPostedAlerts(persisted: Option<seq<string>>): (posted: set<string>)
    ensures |posted| <= KeptOnLoad
    ensures persisted.None? ==> posted == {}
    ensures persisted.Some? ==> forall id :: id in posted <==> id in LastN(persisted.value, KeptOnLoad)
  {
    match persisted
    case None => {}
    case Some(data) => ElementsOf(LastN(data, KeptOnLoad))
  }

  /** The tail of a list without repeats has no repeats. */
  lemma SuffixDistinct(data: seq<string>, k: nat)
    requires Distinct(data) && k <= |data|
    ensures Distinct(data[k..])
  {
    forall i, j | 0 <= i < j < |data| - k ensures data[k..][i] != data[k..][j] {
      assert data[k..][i] == data[k + i] && data[k..][j] == data[k + j];
    }
  }

  /** Reloading what `save_posted_alerts` wrote, in whatever order `list(set)`
      produced, gives back part of the saved set: all of it when it has at most
      500 ids, otherwise exactly 500 of them, chosen by that order. */
  lemma ReloadAfterSave(posted: set<string>, written: seq<string>)
    requires Distinct(written) && ElementsOf(written) == posted
    ensures LoadPostedAlerts(Some(written)) <= posted
    ensures |LoadPostedAlerts(Some(written))| == if |posted| <= KeptOnLoad then |posted| else KeptOnLoad
    ensures |posted| <= KeptOnLoad ==> LoadPostedAlerts(Some(written)) == posted
  {
    ElementsOfDistinct(written);
    var kept := LastN(written, KeptOnLoad);
    SuffixDistinct(written, |written| - |kept|);
    ElementsOfDistinct(kept);
    assert forall x :: x in kept ==> x in written;
  }
}
