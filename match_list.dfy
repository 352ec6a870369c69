/** The match list page: the reply of the get-matches call is grouped by tier
    (perfect, then great, then good, then no longer a match), and every card
    gets a label, a colour class, and the grid a column-count class. */
module MatchList {
  import opened Common

  /** One row of the get-matches reply, reduced to the fields the page computes
      with; `matchType` is None where the row has no such field. */
  datatype Match = Match(id: int, matchType: Option<string>)

  /** The get-matches reply: the sentinel string 'no matches yet', or rows. */
  datatype Reply = NoMatchesYet | Rows(rows: seq<Match>)

  /** The four tiers the page groups by, in the order it shows them. */
  const ListOrder: seq<Tier> := [Perfect, Great, Good, NoLongerAMatch]

  predicate HasTier(m: Match, t: Tier)
  {
    m.matchType == Some(t.Name())
  }

  /** The group a row falls into; None when its `matchType` names none of the four. */
  function GroupOf(m: Match): (r: Option<Tier>)
    ensures r.Some? ==> r.value in ListOrder && HasTier(m, r.value)
    ensures r.None? ==> forall t :: t in ListOrder ==> !HasTier(m, t)
  {
    if HasTier(m, Perfect) then Some(Perfect)
    else if HasTier(m, Great) then Some(Great)
    else if HasTier(m, Good) then Some(Good)
    else if HasTier(m, NoLongerAMatch) then Some(NoLongerAMatch)
    else None
  }

  /** Position of a row in the displayed order: 3 for perfect down to 0 for
      no longer a match (an unrecognised row is never displayed). */
  function Strength(m: Match): nat
  {
    match GroupOf(m)
    case Some(t) => t.Rank()
    case None => 0
  }

  /** The rows of tier `t`, in input order. */
  function Only(xs: seq<Match>, t: Tier): (r: seq<Match>)
    ensures |r| <= |xs|
  {
    if xs == [] then []
    else Only(xs[..|xs| - 1], t) + (if HasTier(xs[|xs| - 1], t) then [xs[|xs| - 1]] else [])
  }

  /** The rows whose tier is one of the four, in input order. */
  function Recognised(xs: seq<Match>): (r: seq<Match>)
    ensures |r| <= |xs|
  {
    if xs == [] then []
    else Recognised(xs[..|xs| - 1]) + (if GroupOf(xs[|xs| - 1]).Some? then [xs[|xs| - 1]] else [])
  }

  /** The order the page displays: all perfect rows, then great, good and
      no longer a match, each group in input order. */
  function Grouped(xs: seq<Match>): seq<Match>
  {
    Only(xs, Perfect) + Only(xs, Great) + Only(xs, Good) + Only(xs, NoLongerAMatch)
  }

  /** Appends every element of `xs` to `acc`, one push at a time. */
  method PushAll(acc: seq<Match>, xs: seq<Match>) returns (r: seq<Match>)
    ensures r == acc + xs
  {
    r := acc;
    var j := 0;
    while j < |xs|
      invariant 0 <= j <= |xs|
      invariant r == acc + xs[..j]
    {
      r := r + [xs[j]];
      j := j + 1;
    }
    assert xs[..|xs|] == xs;
  }

  /** The grouping done when the get-matches reply arrives: four buckets are
      filled in one pass, then concatenated; the sentinel passes through. */
  method GroupMatches(result: Reply) returns (matches: Reply)
    ensures result.NoMatchesYet? ==> matches == NoMatchesYet
    ensures result.Rows? ==> matches == Rows(Grouped(result.rows))
  {
    if result.NoMatchesYet? {
      return result;
    }
    var xs := result.rows;
    var perfectMatches, greatMatches, goodMatches, nonMatches := [], [], [], [];
    var i := 0;
    while i < |xs|
      invariant 0 <= i <= |xs|
      invariant perfectMatches == Only(xs[..i], Perfect)
      invariant greatMatches == Only(xs[..i], Great)
      invariant goodMatches == Only(xs[..i], Good)
      invariant nonMatches == Only(xs[..i], NoLongerAMatch)
    {
      var m := xs[i];
      assert xs[..i + 1] == xs[..i] + [m];
      if m.matchType == Some("perfect") {
        perfectMatches := perfectMatches + [m];
      } else if m.matchType == Some("great") {
        greatMatches := greatMatches + [m];
      } else if m.matchType == Some("good") {
        goodMatches := goodMatches + [m];
      } else if m.matchType == Some("no longer a match") {
        nonMatches := nonMatches + [m];
      }
      OnlySnoc(xs[..i], m);
      i := i + 1;
    }
    assert xs[..|xs|] == xs;
    var out := [];
    out := PushAll(out, perfectMatches);
    out := PushAll(out, greatMatches);
    out := PushAll(out, goodMatches);
    out := PushAll(out, nonMatches);
    matches := Rows(out);
  }

  /** Adding one row at the end adds it to the group of its tier only. */
  lemma OnlySnoc(xs: seq<Match>, m: Match)
    ensures Only(xs + [m], Perfect) == Only(xs, Perfect) + (if m.matchType == Some("perfect") then [m] else [])
    ensures Only(xs + [m], Great) == Only(xs, Great) + (if m.matchType == Some("great") then [m] else [])
    ensures Only(xs + [m], Good) == Only(xs, Good) + (if m.matchType == Some("good") then [m] else [])
    ensures Only(xs + [m], NoLongerAMatch) == Only(xs, NoLongerAMatch) + (if m.matchType == Some("no longer a match") then [m] else [])
  {
    assert (xs + [m])[..|xs|] == xs;
  }

  /** Filtering by a tier distributes over concatenation. */
  lemma {:induction false} OnlyAppend(xs: seq<Match>, ys: seq<Match>, t: Tier)
    ensures Only(xs + ys, t) == Only(xs, t) + Only(ys, t)
    decreases |ys|
  {
    if ys == [] {
      assert xs + ys == xs;
    } else {
      var last := ys[|ys| - 1];
      assert (xs + ys)[..|xs + ys| - 1] == xs + ys[..|ys| - 1];
      OnlyAppend(xs, ys[..|ys| - 1], t);
    }
  }

  /** Filtering twice by the same tier is filtering once; by two different
      tiers, it leaves nothing. */
  lemma {:induction false} OnlyOnly(xs: seq<Match>, t: Tier, u: Tier)
    ensures Only(Only(xs, t), u) == if t == u then Only(xs, t) else []
  {
    if xs != [] {
      var init, last := xs[..|xs| - 1], xs[|xs| - 1];
      var tail := if HasTier(last, t) then [last] else [];
      assert Only(xs, t) == Only(init, t) + tail;
      OnlyOnly(init, t, u);
      OnlyAppend(Only(init, t), tail, u);
      NameInjective(t, u);
      if HasTier(last, t) {
        assert tail[..0] == [];
        assert Only(tail, u) == (if t == u then tail else []);
      } else {
        assert Only(tail, u) == [];
      }
    }
  }

  /** Taking the rows of one tier from the output is taking them from each group. */
  lemma GroupedSplit(xs: seq<Match>, t: Tier)
    ensures Only(Grouped(xs), t) ==
      Only(Only(xs, Perfect), t) + Only(Only(xs, Great), t) + Only(Only(xs, Good), t) + Only(Only(xs, NoLongerAMatch), t)
  {
    var p, g, d, n := Only(xs, Perfect), Only(xs, Great), Only(xs, Good), Only(xs, NoLongerAMatch);
    OnlyAppend(p + g + d, n, t);
    OnlyAppend(p + g, d, t);
    OnlyAppend(p, g, t);
  }

  /** The groups keep their input order: taking the rows of one tier from the
      output gives exactly the rows of that tier in the input, and the output
      holds no row whose `matchType` is the empty string. */
  lemma GroupedStable(xs: seq<Match>, t: Tier)
    ensures t != Unset ==> Only(Grouped(xs), t) == Only(xs, t)
    ensures t == Unset ==> Only(Grouped(xs), t) == []
  {
    GroupedSplit(xs, t);
    OnlyOnly(xs, Perfect, t);
    OnlyOnly(xs, Great, t);
    OnlyOnly(xs, Good, t);
    OnlyOnly(xs, NoLongerAMatch, t);
    PickGroup(t, Only(Grouped(xs), t), Only(xs, Perfect), Only(xs, Great), Only(xs, Good), Only(xs, NoLongerAMatch), Only(xs, t));
  }

  /** The concatenation of the four groups, each kept only for its own tier,
      is the group of `t`. */
  lemma PickGroup(t: Tier, r: seq<Match>, p: seq<Match>, g: seq<Match>, d: seq<Match>, n: seq<Match>, own: seq<Match>)
    requires r == (if Perfect == t then p else []) + (if Great == t then g else [])
                + (if Good == t then d else []) + (if NoLongerAMatch == t then n else [])
    requires t != Unset ==> own == match t case Perfect => p case Great => g case Good => d case _ => n
    ensures t != Unset ==> r == own
    ensures t == Unset ==> r == []
  {
    match t
    case Perfect => assert r == p + [] + [] + [];
    case Great => assert r == [] + g + [] + [];
    case Good => assert r == [] + [] + d + [];
    case NoLongerAMatch => assert r == [] + [] + [] + n;
    case Unset => assert r == [] + [] + [] + [];
  }

  /** Grouping an already grouped list changes nothing. */
  lemma GroupedIdempotent(xs: seq<Match>)
    ensures Grouped(Grouped(xs)) == Grouped(xs)
  {
    GroupedStable(xs, Perfect);
    GroupedStable(xs, Great);
    GroupedStable(xs, Good);
    GroupedStable(xs, NoLongerAMatch);
  }

  /** The recognised rows are the four tier groups put together. */
  lemma {:induction false} RecognisedSplits(xs: seq<Match>)
    ensures multiset(Recognised(xs)) ==
      multiset(Only(xs, Perfect)) + multiset(Only(xs, Great)) + multiset(Only(xs, Good)) + multiset(Only(xs, NoLongerAMatch))
  {
    if xs != [] {
      RecognisedSplits(xs[..|xs| - 1]);
    }
  }

  /** The output is a permutation of the recognised rows of the input: rows
      with an unknown `matchType` are dropped, nothing else is lost or added. */
  lemma GroupedPermutation(xs: seq<Match>)
    ensures multiset(Grouped(xs)) == multiset(Recognised(xs))
    ensures |Grouped(xs)| == |Recognised(xs)|
  {
    RecognisedSplits(xs);
    assert |Grouped(xs)| == |multiset(Grouped(xs))|;
    assert |Recognised(xs)| == |multiset(Recognised(xs))|;
  }

  /** Every row taken for tier `t` has that tier. */
  lemma {:induction false} OnlyAt(xs: seq<Match>, t: Tier, k: nat)
    requires k < |Only(xs, t)|
    ensures HasTier(Only(xs, t)[k], t)
  {
    var init := xs[..|xs| - 1];
    if k < |Only(init, t)| {
      OnlyAt(init, t, k);
    }
  }

  /** The row at position `k` of the output belongs to the group that
      position falls in. */
  lemma GroupedAt(xs: seq<Match>, k: nat)
    requires k < |Grouped(xs)|
    ensures var p, g, d := |Only(xs, Perfect)|, |Only(xs, Great)|, |Only(xs, Good)|;
      GroupOf(Grouped(xs)[k]) == Some(if k < p then Perfect else if k < p + g then Great else if k < p + g + d then Good else NoLongerAMatch)
  {
    var p, g, d, n := Only(xs, Perfect), Only(xs, Great), Only(xs, Good), Only(xs, NoLongerAMatch);
    var m := Grouped(xs)[k];
    if k < |p| {
      OnlyAt(xs, Perfect, k);
    } else if k < |p| + |g| {
      OnlyAt(xs, Great, k - |p|);
    } else if k < |p| + |g| + |d| {
      OnlyAt(xs, Good, k - |p| - |g|);
    } else {
      OnlyAt(xs, NoLongerAMatch, k - |p| - |g| - |d|);
    }
  }

  /** The output is ordered from the strongest tier to the weakest. */
  lemma GroupedOrdered(xs: seq<Match>)
    ensures forall i, j :: 0 <= i < j < |Grouped(xs)| ==> Strength(Grouped(xs)[i]) >= Strength(Grouped(xs)[j])
  {
    forall k | 0 <= k < |Grouped(xs)|
      ensures var p, g, d := |Only(xs, Perfect)|, |Only(xs, Great)|, |Only(xs, Good)|;
        Strength(Grouped(xs)[k]) == if k < p then 3 else if k < p + g then 2 else if k < p + g + d then 1 else 0
    {
      GroupedAt(xs, k);
    }
  }

  /** `rowColsClass`: one column per match up to three; left undefined for an
      empty list and for the sentinel reply. */
  function RowColsClass(matches: Reply): (r: Option<string>)
    ensures r.Some? <==> matches.Rows? && |matches.rows| >= 1
    ensures r.Some? ==> var n := |matches.rows|;
      r.value == "row-cols-lg-" + [('0' as int + (if n < 3 then n else 3)) as char]
  {
    if matches.NoMatchesYet? then None
    else if |matches.rows| == 1 then Some("row-cols-lg-1")
    else if |matches.rows| == 2 then Some("row-cols-lg-2")
    else if |matches.rows| >= 3 then Some("row-cols-lg-3")
    else None
  }

  /** `matchTypeDescription` of one card. A tier other than 'no longer a
      match' is capitalised and followed by " Match!"; 'no longer a match' is
      rebuilt from slices of itself. An empty `matchType` would make the page
      throw, so it is excluded. */
  function Description(matchType: Option<string>): (r: Option<string>)
    requires matchType.Some? ==> |matchType.value| > 0
    ensures r.None? <==> matchType.None?
    ensures r.Some? ==> |r.value| > 0 && r.value[0] == UpperChar(matchType.value[0])
    ensures matchType.Some? && matchType.value != NoLongerAMatch.Name() ==>
      var s := matchType.value;
      |r.value| == |s| + 7 && r.value[1..|s|] == s[1..] && r.value[|s|..] == " Match!"
  {
    match matchType
    case None => None
    case Some(s) =>
      if s != NoLongerAMatch.Name() then Some(MatchLabel(s))
      else Some([UpperChar(s[0])] + Slice(s, 1, -5) + Upper(Slice(s, 12, -4)) + SliceFrom(s, -4) + ".")
  }

  /** `matchTypeClass` of one card, chosen from its description; grey for
      every label but the three good tiers'. */
  function ColourClass(description: Option<string>): (r: string)
    ensures r == "yellow" <==> description == Some("Perfect Match!")
    ensures r == "green" <==> description == Some("Great Match!")
    ensures r == "danger" <==> description == Some("Good Match!")
    ensures r == "grey" <==> description !in {Some("Perfect Match!"), Some("Great Match!"), Some("Good Match!")}
  {
    match LabelColour(description)
    case Some(c) => c
    case None => "grey"
  }

  /** The label and colour of each of the four tiers. */
  lemma TierLabels()
    ensures Description(Some(Perfect.Name())) == Some("Perfect Match!")
    ensures Description(Some(Great.Name())) == Some("Great Match!")
    ensures Description(Some(Good.Name())) == Some("Good Match!")
    ensures Description(Some(NoLongerAMatch.Name())) == Some("No longer a Match.")
    ensures ColourClass(Description(Some(Perfect.Name()))) == "yellow"
    ensures ColourClass(Description(Some(Great.Name()))) == "green"
    ensures ColourClass(Description(Some(Good.Name()))) == "danger"
    ensures ColourClass(Description(Some(NoLongerAMatch.Name()))) == "grey"
  {
    CapitalisedLabel("perfect", "Perfect");
    assert "Perfect" + " Match!" == "Perfect Match!";
    CapitalisedLabel("great", "Great");
    assert "Great" + " Match!" == "Great Match!";
    CapitalisedLabel("good", "Good");
    assert "Good" + " Match!" == "Good Match!";
    NonMatchLabel();
  }

  /** The slices of 'no longer a match' rebuild it as "No longer a Match.". */
  lemma NonMatchLabel()
    ensures Description(Some(NoLongerAMatch.Name())) == Some("No longer a Match.")
  {
    var s := NoLongerAMatch.Name();
    var head, middle, m, tail := "o longer a ", "m", "M", "atch";
    assert s == ['n'] + head + middle + tail;
    assert SliceIndex(17, 1) == 1 && SliceIndex(17, -5) == 12;
    assert SliceIndex(17, 12) == 12 && SliceIndex(17, -4) == 13 && SliceIndex(17, 17) == 17;
    assert Slice(s, 1, -5) == head;
    assert Slice(s, 12, -4) == middle;
    assert UpperChar('m') == 'M';
    assert Upper(middle) == m;
    assert SliceFrom(s, -4) == tail;
    assert UpperChar(s[0]) == 'N';
    assert ['N'] + head + m + tail + "." == "No longer a Match.";
  }

  /** The label of a tier other than 'no longer a match'. */
  lemma CapitalisedLabel(name: string, capitalised: string)
    requires name != NoLongerAMatch.Name() && |name| > 0 && Capitalised(name) == capitalised
    ensures Description(Some(name)) == Some(capitalised + " Match!")
  {
  }

  /** Every row the grouped list displays gets one of the four labels, and
      its colour follows its tier. */
  lemma GroupedLabels(xs: seq<Match>, k: nat)
    requires k < |Grouped(xs)|
    ensures var m := Grouped(xs)[k];
      m.matchType.Some? && |m.matchType.value| > 0 &&
      ColourClass(Description(m.matchType)) == ["grey", "danger", "green", "yellow"][Strength(m)]
  {
    GroupedAt(xs, k);
    TierLabels();
  }
}
