/**
 * The station list of the sidebar (frontend/src/components/StationPicker.tsx):
 * the search filter over the dataset's stations, and the new selection a
 * click on a station computes. "Select all" and "Clear" replace the
 * selection outright; they are `App.AppState.SelectAll` and
 * `App.AppState.ClearSelection`.
 */
module StationPicker {
  import opened Text

  /** `r` is `xs` with some elements left out, in the same order. */
  predicate IsSubsequence(r: seq<string>, xs: seq<string>)
    decreases |xs|
  {
    || r == []
    || (xs != [] && ((r[0] == xs[0] && IsSubsequence(r[1..], xs[1..])) || IsSubsequence(r, xs[1..])))
  }

  /** `xs.filter(keep)` for a predicate given as a function. */
  function FilterBy(xs: seq<string>, keep: string -> bool): (r: seq<string>)
    ensures forall s :: s in r <==> s in xs && keep(s)
    ensures IsSubsequence(r, xs)
    decreases |xs|
  {
    if xs == [] then []
    else
      var rest := FilterBy(xs[1..], keep);
      assert forall s :: s in xs <==> s == xs[0] || s in xs[1..];
      if keep(xs[0]) then [xs[0]] + rest else rest
  }

  /**
   * `filtered`: every station when the trimmed search text is empty,
   * otherwise the stations whose lower-case name contains the trimmed,
   * lower-cased search text, in their original order.
   */
  function Filtered(stations: seq<string>, filter: string): (r: seq<string>)
    ensures AllSpace(filter) ==> r == stations
    ensures !AllSpace(filter) ==> forall s :: s in r <==> s in stations && Contains(Lower(s), Lower(Trim(filter)))
    ensures IsSubsequence(r, stations)
  {
    TrimEmpty(filter);
    var q := Lower(Trim(filter));
    if q == "" then SubsequenceRefl(stations); stations
    else FilterBy(stations, s => Contains(Lower(s), q))
  }

  lemma {:induction false} SubsequenceRefl(xs: seq<string>)
    ensures IsSubsequence(xs, xs)
    decreases |xs|
  {
    if xs != [] {
      SubsequenceRefl(xs[1..]);
    }
  }

  /** `selected.filter((x) => x !== s)`. */
  function Without(xs: seq<string>, s: string): (r: seq<string>)
    ensures s !in r
    ensures forall t :: t != s ==> (t in r <==> t in xs)
    ensures IsSubsequence(r, xs)
    ensures s !in xs ==> r == xs
  {
    var r := FilterBy(xs, x => x != s);
    if s !in xs then WithoutAbsent(xs, s); r else r
  }

  lemma {:induction false} WithoutAbsent(xs: seq<string>, s: string)
    requires s !in xs
    ensures FilterBy(xs, x => x != s) == xs
    decreases |xs|
  {
    if xs != [] {
      WithoutAbsent(xs[1..], s);
      assert FilterBy(xs, x => x != s) == [xs[0]] + FilterBy(xs[1..], x => x != s);
    }
  }

  /** A click on a station: a selected one is removed everywhere, any other is appended. */
  function Toggle(selected: seq<string>, s: string): (r: seq<string>)
    ensures s in r <==> s !in selected
    ensures forall t :: t != s ==> (t in r <==> t in selected)
    ensures s !in selected ==> |r| == |selected| + 1 && r[|selected|] == s
  {
    if s in selected then Without(selected, s) else selected + [s]
  }

  /** The other stations keep their order through a toggle. */
  lemma ToggleKeepsOthers(selected: seq<string>, s: string)
    ensures Without(Toggle(selected, s), s) == Without(selected, s)
  {
    if s !in selected {
      WithoutAppended(selected, s);
    } else {
      var w := Without(selected, s);
      assert Without(w, s) == w;
    }
  }

  lemma {:induction false} WithoutAppended(xs: seq<string>, s: string)
    ensures Without(xs + [s], s) == Without(xs, s)
    decreases |xs|
  {
    var f := x => x != s;
    if xs == [] {
      assert FilterBy([s], f) == [] + FilterBy([s][1..], f);
    } else {
      assert (xs + [s])[1..] == xs[1..] + [s];
      WithoutAppended(xs[1..], s);
      assert FilterBy(xs + [s], f) == (if f(xs[0]) then [xs[0]] else []) + FilterBy(xs[1..] + [s], f);
      assert FilterBy(xs, f) == (if f(xs[0]) then [xs[0]] else []) + FilterBy(xs[1..], f);
    }
  }

  /** Clicking an unselected station twice gives back the selection it started from. */
  lemma ToggleTwice(selected: seq<string>, s: string)
    requires s !in selected
    ensures Toggle(Toggle(selected, s), s) == selected
  {
    WithoutAppended(selected, s);
  }
}
