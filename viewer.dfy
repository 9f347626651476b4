/**
 * The quote viewer of app/app.py: listing the tags, filtering by tags, and the
 * carousel session that Streamlit keeps in `st.session_state`.
 */
module Viewer {
  import opened Wrappers
  import opened StringOrder

  /** A loaded record; `tags` is `None` when the record has no "tags" key. */
  datatype Quote = Quote(id: string, text: string, author: string, tags: Option<seq<string>>)

  /** `q.get("tags", [])`. */
  function TagsOf(q: Quote): (r: seq<string>)
    ensures q.tags.None? ==> r == []
    ensures q.tags.Some? ==> r == q.tags.value
  {
    q.tags.GetOr([])
  }

  /** `t` is a tag of at least one of `quotes`. */
  predicate IsTagOfSome(t: string, quotes: seq<Quote>) {
    exists k :: 0 <= k < |quotes| && t in TagsOf(quotes[k])
  }

  // ---------------------------------------------------------------- get_all_tags

  /** `sorted(tags)` for a set of strings. */
  method SortedTags(tags: set<string>) returns (r: seq<string>)
    ensures StrictlySorted(r)
    ensures forall t :: t in r <==> t in tags
  {
    r := [];
    var rest := tags;
    while rest != {}
      invariant StrictlySorted(r)
      invariant forall t :: t in r || t in rest <==> t in tags
      decreases rest
    {
      var t :| t in rest;
      r := Insert(r, t);
      rest := rest - {t};
    }
  }

  /** The union of all tags, sorted, without duplicates. */
  method GetAllTags(quotes: seq<Quote>) returns (r: seq<string>)
    ensures StrictlySorted(r)
    ensures forall t :: t in r <==> IsTagOfSome(t, quotes)
  {
    var tags: set<string> := {};
    for i := 0 to |quotes|
      invariant forall t :: t in tags <==> exists k :: 0 <= k < i && t in TagsOf(quotes[k])
    {
      var qt := TagsOf(quotes[i]);
      for j := 0 to |qt|
        invariant forall t :: t in tags <==>
          (exists k :: 0 <= k < i && t in TagsOf(quotes[k])) || t in qt[..j]
      {
        tags := tags + {qt[j]};
      }
      assert qt[..|qt|] == qt;
    }
    r := SortedTags(tags);
  }

  // ----------------------------------------------------------- filter_using_tags

  /** Python's `set(xs)` of a list of strings. */
  function ToSet(xs: seq<string>): (r: set<string>)
    ensures forall t :: t in r <==> t in xs
  {
    set t | t in xs
  }

  /** `set(selected).issubset(set(q.get("tags", [])))`. */
  predicate HasAllTags(q: Quote, selected: seq<string>)
    ensures HasAllTags(q, selected) <==> ToSet(selected) <= ToSet(TagsOf(q))
  {
    forall t :: t in selected ==> t in TagsOf(q)
  }

  /** `a` is `b` with some elements left out, the rest in their original order. */
  predicate IsSubsequence<T(==)>(a: seq<T>, b: seq<T>)
    decreases |b|
  {
    |a| == 0 ||
    (|b| > 0 && ((a[0] == b[0] && IsSubsequence(a[1..], b[1..])) || IsSubsequence(a, b[1..])))
  }

  lemma {:induction false} SubsequenceRefl<T>(s: seq<T>)
    ensures IsSubsequence(s, s)
    decreases |s|
  {
    if |s| > 0 {
      SubsequenceRefl(s[1..]);
    }
  }

  /** The list comprehension: the records that carry every selected tag, in order. */
  function KeepMatching(quotes: seq<Quote>, selected: seq<string>): (r: seq<Quote>)
    ensures forall q :: q in r ==> HasAllTags(q, selected)
    ensures forall q :: multiset(r)[q] == if HasAllTags(q, selected) then multiset(quotes)[q] else 0
    ensures IsSubsequence(r, quotes)
    decreases |quotes|
  {
    if |quotes| == 0 then []
    else
      assert quotes == [quotes[0]] + quotes[1..];
      var rest := KeepMatching(quotes[1..], selected);
      if HasAllTags(quotes[0], selected) then [quotes[0]] + rest else rest
  }

  /** `filter_using_tags`: an empty selection returns the input itself. */
  function FilterByTags(quotes: seq<Quote>, selected: seq<string>): (r: seq<Quote>)
    ensures |selected| == 0 ==> r == quotes
    ensures forall q :: q in r ==> HasAllTags(q, selected)
    ensures forall q :: q in quotes && HasAllTags(q, selected) ==> q in r
    ensures forall q :: multiset(r)[q] == if HasAllTags(q, selected) then multiset(quotes)[q] else 0
    ensures IsSubsequence(r, quotes)
  {
    if |selected| == 0 then
      SubsequenceRefl(quotes);
      quotes
    else
      KeepMatching(quotes, selected)
  }

  /** Keeping the matching records of a list where all match changes nothing. */
  lemma {:induction false} KeepAllMatching(quotes: seq<Quote>, selected: seq<string>)
    requires forall q :: q in quotes ==> HasAllTags(q, selected)
    ensures KeepMatching(quotes, selected) == quotes
    decreases |quotes|
  {
    if |quotes| > 0 {
      assert quotes[0] in quotes;
      KeepAllMatching(quotes[1..], selected);
      assert quotes == [quotes[0]] + quotes[1..];
    }
  }

  /** Filtering an already filtered list by the same selection gives the same list. */
  lemma FilterIdempotent(quotes: seq<Quote>, selected: seq<string>)
    ensures FilterByTags(FilterByTags(quotes, selected), selected) == FilterByTags(quotes, selected)
  {
    if |selected| > 0 {
      KeepAllMatching(FilterByTags(quotes, selected), selected);
    }
  }

  /** Three records tagged [a], [a, b], [b] filtered by {a}: the first two, in order. */
  lemma FilterScenario()
    ensures var q1 := Quote("1", "x", "A", Some(["a"]));
            var q2 := Quote("2", "y", "B", Some(["a", "b"]));
            var q3 := Quote("3", "z", "C", Some(["b"]));
            FilterByTags([q1, q2, q3], ["a"]) == [q1, q2]
  {
    var q1 := Quote("1", "x", "A", Some(["a"]));
    var q2 := Quote("2", "y", "B", Some(["a", "b"]));
    var q3 := Quote("3", "z", "C", Some(["b"]));
    assert !HasAllTags(q3, ["a"]) by {
      assert "a" in ["a"];
      assert "a" != "b";
    }
    assert [q1, q2, q3][1..] == [q2, q3];
    assert [q2, q3][1..] == [q3];
    assert [q3][1..] == [];
  }

  // -------------------------------------------------------------- the carousel

  /** What the user did on one run of the script: nothing, "Previous" or "Next". */
  datatype Action = Stay | GoPrevious | GoNext

  function Delta(a: Action): (d: int) {
    match a
    case Stay => 0
    case GoPrevious => -1
    case GoNext => 1
  }

  /**
   * The index left in the session by one run that displayed a record of a
   * filtered list of `n` records: reduced modulo `n`, then moved by the button.
   */
  function AfterRun(index: int, n: int, a: Action): (r: int)
    requires n > 0
    ensures -1 <= r <= n
    ensures Displayed(r, n) == Displayed(index + Delta(a), n)
  {
    ModAddLeft(index, Delta(a), n);
    index % n + Delta(a)
  }

  /** The index after a series of runs over the same filtered list of `n` records. */
  function AfterRuns(index: int, n: int, actions: seq<Action>): (r: int)
    requires n > 0
    ensures |actions| > 0 ==> -1 <= r <= n
    decreases |actions|
  {
    if |actions| == 0 then index else AfterRuns(AfterRun(index, n, actions[0]), n, actions[1..])
  }

  function Repeat(a: Action, k: nat): (r: seq<Action>)
    ensures |r| == k && forall i :: 0 <= i < k ==> r[i] == a
  {
    if k == 0 then [] else [a] + Repeat(a, k - 1)
  }

  /** The record a run displays is the one at the index reduced modulo `n`. */
  function Displayed(index: int, n: int): (r: int)
    requires n > 0
    ensures 0 <= r < n
    ensures exists m :: index == m * n + r
  {
    assert index == (index / n) * n + index % n;
    index % n
  }

  /** `(x % n + y) % n == (x + y) % n`. */
  lemma ModAddLeft(x: int, y: int, n: int)
    requires n > 0
    ensures (x % n + y) % n == (x + y) % n
  {
    var q := x / n;
    assert x == q * n + x % n;
    ModShift(x % n + y, q, n);
    assert x % n + y + q * n == x + y;
  }

  /** Adding a multiple of `n` does not change a remainder modulo `n`. */
  lemma ModShift(z: int, q: int, n: int)
    requires n > 0
    ensures (z + q * n) % n == z % n
  {
    var w := z + q * n;
    var r := z % n;
    assert z == (z / n) * n + r;
    assert w == (z / n + q) * n + r;
    ModUnique(w, z / n + q, r, n);
  }

  /** Euclidean division is unique. */
  lemma ModUnique(w: int, m: int, r: int, n: int)
    requires n > 0 && 0 <= r < n && w == m * n + r
    ensures w % n == r
  {
    var m' := w / n;
    var r' := w % n;
    assert w == m' * n + r';
    assert (m - m') * n == r' - r;
    if m > m' {
      MulAtLeast(m - m', n);
    } else if m < m' {
      MulAtLeast(m' - m, n);
    }
  }

  /** A positive multiple of `n` is at least `n`. */
  lemma MulAtLeast(d: int, n: int)
    requires d > 0 && n > 0
    ensures d * n >= n
  {
  }

  /** After `k` runs that each pressed "Next", the display has moved on by `k`, cyclically. */
  lemma {:induction false} NextRunsAdvance(index: int, n: int, k: nat)
    requires n > 0
    ensures Displayed(AfterRuns(index, n, Repeat(GoNext, k)), n) == (index + k) % n
    decreases k
  {
    if k > 0 {
      var actions := Repeat(GoNext, k);
      assert actions[1..] == Repeat(GoNext, k - 1);
      var next := AfterRun(index, n, GoNext);
      assert next == index % n + 1;
      NextRunsAdvance(next, n, k - 1);
      ModAddLeft(index, k, n);
    }
  }

  /** Pressing "Next" `n` times on a filtered list of `n` records shows the same record again. */
  lemma NextWrapsAround(index: int, n: int)
    requires n > 0
    ensures Displayed(AfterRuns(index, n, Repeat(GoNext, n)), n) == Displayed(index, n)
  {
    NextRunsAdvance(index, n, n);
    ModShift(index, 1, n);
  }

  /** The `st.rerun()` run after a click, where no button is pressed, changes nothing for the run after it. */
  lemma StayAbsorbed(x: int, n: int, a: Action)
    requires n > 0
    ensures AfterRun(AfterRun(x, n, Stay), n, a) == AfterRun(x, n, a)
  {
  }

  /** `k` clicks on `a`: each the run where the button returns true, then the rerun it causes. */
  function Clicks(a: Action, k: nat): (r: seq<Action>)
    ensures |r| == 2 * k
    ensures forall i :: 0 <= i < |r| ==> r[i] == if i % 2 == 0 then a else Stay
  {
    if k == 0 then [] else
      var rest := Clicks(a, k - 1);
      assert forall i :: 2 <= i < 2 * k ==> ([a, Stay] + rest)[i] == rest[i - 2];
      [a, Stay] + rest
  }

  /** After `k` clicks on "Next", each followed by its rerun, the display has moved on by `k`, cyclically. */
  lemma {:induction false} NextClicksAdvance(index: int, n: int, k: nat)
    requires n > 0
    ensures Displayed(AfterRuns(index, n, Clicks(GoNext, k)), n) == (index + k) % n
    decreases k
  {
    if k > 0 {
      var actions := Clicks(GoNext, k);
      assert actions[1..][1..] == Clicks(GoNext, k - 1);
      var next := AfterRun(index, n, GoNext);
      var rerun := AfterRun(next, n, Stay);
      assert AfterRuns(index, n, actions) == AfterRuns(rerun, n, Clicks(GoNext, k - 1));
      NextClicksAdvance(rerun, n, k - 1);
      ModAddLeft(next, k - 1, n);
      ModAddLeft(index, k, n);
    }
  }

  /** `n` clicks on "Next" over `n` filtered records, reruns included, show the same record again. */
  lemma NextClicksWrapAround(index: int, n: int)
    requires n > 0
    ensures Displayed(AfterRuns(index, n, Clicks(GoNext, n)), n) == Displayed(index, n)
  {
    NextClicksAdvance(index, n, n);
    ModShift(index, 1, n);
  }

  /** "Previous" on the first record shows the last one on the following run. */
  lemma PreviousWrapsAround(n: int)
    requires n > 0
    ensures Displayed(AfterRun(0, n, GoPrevious), n) == n - 1
  {
  }

  /**
   * One browser session: `st.session_state["quote_index"]` and
   * `st.session_state["active_tags"]`.
   */
  class Session {
    var index: int
    var activeTags: seq<string>

    /** The first run initialises both keys. */
    constructor ()
      ensures index == 0 && activeTags == []
    {
      index := 0;
      activeTags := [];
    }

    /** A selection that differs from the active one replaces it and resets the carousel. */
    method SelectTags(selected: seq<string>)
      modifies this
      ensures activeTags == selected
      ensures selected != old(activeTags) ==> index == 0
      ensures selected == old(activeTags) ==> index == old(index)
    {
      if selected != activeTags {
        activeTags := selected;
        index := 0;
      }
    }

    /**
     * Filters by the active tags; stops (returns `None`, leaving the index
     * alone) when nothing matches, and otherwise reduces the index and
     * returns the record it designates.
     */
    method Render(quotes: seq<Quote>) returns (shown: Option<Quote>)
      modifies this
      ensures activeTags == old(activeTags)
      ensures var filtered := FilterByTags(quotes, activeTags);
              if |filtered| == 0 then
                shown == None && index == old(index)
              else
                && index == Displayed(old(index), |filtered|)
                && 0 <= index < |filtered|
                && shown == Some(filtered[index])
    {
      var filtered := FilterByTags(quotes, activeTags);
      if |filtered| == 0 {
        return None;
      }
      index := index % |filtered|;
      shown := Some(filtered[index]);
    }

    /** The "Previous" button. */
    method Previous()
      modifies this
      ensures index == old(index) - 1 && activeTags == old(activeTags)
    {
      index := index - 1;
    }

    /** The "Next" button. */
    method Next()
      modifies this
      ensures index == old(index) + 1 && activeTags == old(activeTags)
    {
      index := index + 1;
    }

    /**
     * One run of the script with selection `selected`: the buttons exist
     * only when a record was displayed.
     */
    method Run(quotes: seq<Quote>, selected: seq<string>, action: Action) returns (shown: Option<Quote>)
      modifies this
      ensures activeTags == selected
      ensures var start := if selected != old(activeTags) then 0 else old(index);
              var filtered := FilterByTags(quotes, selected);
              if |filtered| == 0 then
                shown == None && index == start
              else
                && shown == Some(filtered[Displayed(start, |filtered|)])
                && index == AfterRun(start, |filtered|, action)
    {
      SelectTags(selected);
      shown := Render(quotes);
      if shown.Some? {
        match action
        case Stay =>
        case GoPrevious => Previous();
        case GoNext => Next();
      }
    }
  }

  /**
   * A new session over two records: the click on "Previous" is made on a run
   * that shows the first; the `st.rerun()` that follows shows the second.
   */
  method PreviousFromFirstScenario(q1: Quote, q2: Quote) returns (clicked: Option<Quote>, rerun: Option<Quote>)
    ensures clicked == Some(q1) && rerun == Some(q2)
  {
    var s := new Session();
    clicked := s.Run([q1, q2], [], GoPrevious);
    rerun := s.Run([q1, q2], [], Stay);
  }
}
