/**
 * The listing the grabber writes: a `tv` root naming its source, the
 * channel elements whose id was selected, then, unless only channels are
 * wanted, every programme of the day window once, cleaned up.
 */
module Listing {
  import opened Wrappers
  import opened Dates
  import opened Tree
  import opened Categories
  import opened FixUp
  import opened ProgrammeKey
  import opened Catalogue

  /** What the grabber logs as a warning while it builds a listing. */
  datatype Warning =
    | DaysClamped(maxDays: int)           // the request reaches past the last day of data
    | NoEtsiEquivalent(category: string)  // a category outside the ETSI table

  /** A child of the `tv` root: a channel element or a programme element of the feed, moved over as it is. */
  datatype Node = ChannelNode(channel: Channel) | ProgrammeElement(programme: ProgrammeNode)

  /** The `tv` root of the listing. */
  datatype Document = Document(attrs: map<string, string>, children: seq<Node>)

  /** The parsed feed: its channel and programme elements, in document order. */
  datatype Feed = Feed(channels: seq<Channel>, programmes: seq<ProgrammeNode>)

  const SourceInfoName: string := "TVClub"
  const SourceInfoUrl: string := "http://forum.tvclub.fr/programmes-epg/index.php"
  const SourceDataUrl: string := "http://guide.tvclub.fr/tvguide.xml"

  /** The attributes of the `tv` root; the generator ones only when they were given. */
  function RootAttrs(generator: Option<string>, generatorUrl: Option<string>): (r: map<string, string>)
    ensures r.Keys == {"source-info-name", "source-info-url", "source-data-url"}
                      + (if generator.Some? then {"generator-info-name"} else {})
                      + (if generatorUrl.Some? then {"generator-info-url"} else {})
    ensures r["source-info-name"] == SourceInfoName
    ensures r["source-info-url"] == SourceInfoUrl
    ensures r["source-data-url"] == SourceDataUrl
    ensures generator.Some? ==> r["generator-info-name"] == generator.value
    ensures generatorUrl.Some? ==> r["generator-info-url"] == generatorUrl.value
  {
    var source := map["source-info-name" := SourceInfoName, "source-info-url" := SourceInfoUrl,
                      "source-data-url" := SourceDataUrl];
    var named := if generator.Some? then source["generator-info-name" := generator.value] else source;
    if generatorUrl.Some? then named["generator-info-url" := generatorUrl.value] else named
  }

  /** The warning about the span, logged when the request reaches past `MaxDays` days. */
  function ClampWarnings(days: int, offset: int): (r: seq<Warning>)
    ensures r == [] || r == [DaysClamped(MaxDays)]
    ensures r != [] <==> ClampDays(days, offset) != days
  {
    if days + offset > MaxDays then [DaysClamped(MaxDays)] else []
  }

  /** Every position in `ks` is below `n`. */
  predicate Below(ks: seq<nat>, n: nat) {
    forall i :: 0 <= i < |ks| ==> ks[i] < n
  }

  predicate Increasing(ks: seq<nat>) {
    forall i, j :: 0 <= i < j < |ks| ==> ks[i] < ks[j]
  }

  /** The positions of the `true` flags, in increasing order. */
  function Positions(flags: seq<bool>): (r: seq<nat>)
    ensures Below(r, |flags|)
  {
    if flags == [] then []
    else Positions(flags[..|flags| - 1]) + (if flags[|flags| - 1] then [|flags| - 1] else [])
  }

  /** `Positions` lists exactly the positions of the `true` flags, each once and in order. */
  lemma {:induction false} PositionsOf(flags: seq<bool>)
    ensures Increasing(Positions(flags))
    ensures forall k: nat :: k in Positions(flags) <==> k < |flags| && flags[k]
  {
    if flags != [] {
      var init := flags[..|flags| - 1];
      PositionsOf(init);
      assert forall k :: 0 <= k < |init| ==> init[k] == flags[k];
    }
  }

  /** One more flag adds its position or nothing. */
  lemma PositionsSnoc(flags: seq<bool>, b: bool)
    ensures Positions(flags + [b]) == Positions(flags) + (if b then [|flags|] else [])
  {
    assert (flags + [b])[..|flags|] == flags;
  }

  // ---------------------------------------------------------------------
  // Channels

  predicate IsSelected(c: Channel, ids: seq<string>) {
    c.id.Some? && c.id.value in ids
  }

  /** The positions of the channels whose id was selected, in feed order. */
  function Selected(chans: seq<Channel>, ids: seq<string>): (r: seq<nat>)
    ensures Below(r, |chans|) && Increasing(r)
    ensures forall k: nat :: k in r <==> k < |chans| && IsSelected(chans[k], ids)
  {
    PositionsOf(SelectedFlags(chans, ids));
    Positions(SelectedFlags(chans, ids))
  }

  /** Whether each channel was selected. */
  function SelectedFlags(chans: seq<Channel>, ids: seq<string>): (r: seq<bool>)
    ensures |r| == |chans|
  {
    seq(|chans|, k requires 0 <= k < |chans| => IsSelected(chans[k], ids))
  }

  function ChannelNodes(chans: seq<Channel>, ks: seq<nat>): (r: seq<Node>)
    requires Below(ks, |chans|)
    ensures |r| == |ks|
    ensures forall i :: 0 <= i < |ks| ==> r[i] == ChannelNode(chans[ks[i]])
  {
    if ks == [] then [] else ChannelNodes(chans, ks[..|ks| - 1]) + [ChannelNode(chans[ks[|ks| - 1]])]
  }

  // ---------------------------------------------------------------------
  // Programmes

  /** The first `n` programmes have stamps that parse. */
  predicate StampsOkUpTo(vs: seq<Programme>, n: nat) {
    forall j {:trigger StampsOk(vs[j])} :: 0 <= j < n && j < |vs| ==> StampsOk(vs[j])
  }

  /**
   * The programme is not skipped by the window test: it neither stops
   * before the window nor starts after it. When it starts no later than it
   * stops and the window is not empty, that is exactly when one of its days
   * lies in the window.
   */
  predicate Passes(p: Programme, w: Window)
    requires StampsOk(p)
    ensures Passes(p, w) <==> w.first <= DayOf(Attr(p.attrs, "stop", "")) && DayOf(Attr(p.attrs, "start", "")) <= w.last
    ensures var start, stop := DayOf(Attr(p.attrs, "start", "")), DayOf(Attr(p.attrs, "stop", ""));
            start <= stop && w.first <= w.last ==>
              (Passes(p, w) <==> exists d :: InWindow(d, w) && start <= d <= stop)
  {
    var start, stop := DayOf(Attr(p.attrs, "start", "")), DayOf(Attr(p.attrs, "stop", ""));
    OverlapsMeaning(start, stop, w);
    Overlaps(start, stop, w)
  }

  /** Programme `i` goes into the listing: it passes the window test and no earlier programme that passes has its key. */
  predicate IsKept(vs: seq<Programme>, w: Window, i: nat)
    requires i < |vs| && StampsOkUpTo(vs, i + 1)
  {
    Passes(vs[i], w) && forall j {:trigger Key(vs[j])} :: 0 <= j < i && Passes(vs[j], w) ==> Key(vs[j]) != Key(vs[i])
  }

  /** Whether each of the first `n` programmes is kept. */
  function KeptFlags(vs: seq<Programme>, w: Window, n: nat): (r: seq<bool>)
    requires n <= |vs| && StampsOkUpTo(vs, n)
    ensures |r| == n
  {
    seq(n, k requires 0 <= k < n && n <= |vs| && StampsOkUpTo(vs, n) => IsKept(vs, w, k))
  }

  /** The positions, among the first `n` programmes, of the kept ones, in feed order. */
  function KeptIndices(vs: seq<Programme>, w: Window, n: nat): (r: seq<nat>)
    requires n <= |vs| && StampsOkUpTo(vs, n)
    ensures Below(r, n) && Increasing(r)
    ensures forall k: nat :: k in r <==> k < n && IsKept(vs, w, k)
  {
    PositionsOf(KeptFlags(vs, w, n));
    Positions(KeptFlags(vs, w, n))
  }

  /** The keys of the given programmes: the list of ids the grabber has seen. */
  function KeysOf(vs: seq<Programme>, ks: seq<nat>): (r: seq<string>)
    requires Below(ks, |vs|)
    ensures |r| == |ks|
    ensures forall i :: 0 <= i < |ks| ==> r[i] == Key(vs[ks[i]])
  {
    if ks == [] then [] else KeysOf(vs, ks[..|ks| - 1]) + [Key(vs[ks[|ks| - 1]])]
  }

  function ProgrammeNodes(ps: seq<ProgrammeNode>, ks: seq<nat>): (r: seq<Node>)
    requires Below(ks, |ps|)
    ensures |r| == |ks|
    ensures forall i :: 0 <= i < |ks| ==> r[i] == ProgrammeElement(ps[ks[i]])
  {
    if ks == [] then [] else ProgrammeNodes(ps, ks[..|ks| - 1]) + [ProgrammeElement(ps[ks[|ks| - 1]])]
  }

  predicate KeptTextsPresent(vs: seq<Programme>, ks: seq<nat>) {
    Below(ks, |vs|) && forall i :: 0 <= i < |ks| ==> TextsPresent(vs[ks[i]].children)
  }

  /** The category warnings of the given programmes, in order. */
  function ProgrammeWarnings(vs: seq<Programme>, ks: seq<nat>): (r: seq<Warning>)
    requires KeptTextsPresent(vs, ks)
    ensures |r| <= |ks|
    ensures forall x :: x in r ==> x.NoEtsiEquivalent? && x.category !in EtsiProgramCategories && x.category != ""
  {
    if ks == [] then []
    else
      var k := ks[|ks| - 1];
      CategoryOutcomes(vs[k].children);
      ProgrammeWarnings(vs, ks[..|ks| - 1]) + WarningOf(vs[k].children)
  }

  /**
   * Handling programme `i` raises: one of its stamps does not parse, or it
   * is kept and a text the clean-up reads is missing.
   */
  predicate Fails(vs: seq<Programme>, w: Window, i: nat)
    requires i < |vs| && StampsOkUpTo(vs, i)
  {
    !StampsOk(vs[i]) || (IsKept(vs, w, i) && !TextsPresent(vs[i].children))
  }

  /** None of the first `n` programmes raises. */
  predicate NoFailureBefore(vs: seq<Programme>, w: Window, n: nat)
    requires n <= |vs|
  {
    StampsOkUpTo(vs, n) && forall j {:trigger IsKept(vs, w, j)} :: 0 <= j < n ==> IsKept(vs, w, j) ==> TextsPresent(vs[j].children)
  }

  /** The programme at which the grabber raises, or `|vs|` when it gets through them all. */
  function Reached(vs: seq<Programme>, w: Window): (r: nat)
    ensures r <= |vs| && NoFailureBefore(vs, w, r)
    ensures r < |vs| ==> Fails(vs, w, r)
  {
    ReachedFrom(vs, w, 0)
  }

  function ReachedFrom(vs: seq<Programme>, w: Window, i: nat): (r: nat)
    requires i <= |vs| && NoFailureBefore(vs, w, i)
    ensures i <= r <= |vs| && NoFailureBefore(vs, w, r)
    ensures r < |vs| ==> Fails(vs, w, r)
    decreases |vs| - i
  {
    if i == |vs| || Fails(vs, w, i) then i
    else
      NoFailureStep(vs, w, i);
      ReachedFrom(vs, w, i + 1)
  }

  lemma NoFailureStep(vs: seq<Programme>, w: Window, i: nat)
    requires i < |vs| && NoFailureBefore(vs, w, i) && !Fails(vs, w, i)
    ensures NoFailureBefore(vs, w, i + 1)
  {
    assert StampsOkUpTo(vs, i + 1);
  }

  // ---------------------------------------------------------------------
  // Properties of the listing

  /**
   * Duplicates are detected on the feed's keys, before the clean-up: two
   * programmes whose titles differ only in trailing white space are both
   * kept, and once cleaned up they carry the same key.
   */
  lemma CleanedKeysCanCollide(w: Window, channel: string, start: string, stop: string)
    requires StampOk(start) && StampOk(stop) && Overlaps(DayOf(start), DayOf(stop), w)
    ensures var attrs := map["channel" := channel, "start" := start, "stop" := stop];
            var a := Programme(attrs, [Element("title", Some("A"), map[], [])]);
            var b := Programme(attrs, [Element("title", Some("A "), map[], [])]);
            StampsOkUpTo([a, b], 2)
            && 0 in KeptIndices([a, b], w, 2) && 1 in KeptIndices([a, b], w, 2)
            && TextsPresent(a.children) && TextsPresent(b.children)
            && Key(Programme(a.attrs, Fixed(a.children))) == Key(Programme(b.attrs, Fixed(b.children)))
  {
    var attrs := map["channel" := channel, "start" := start, "stop" := stop];
    var a := Programme(attrs, [Element("title", Some("A"), map[], [])]);
    var b := Programme(attrs, [Element("title", Some("A "), map[], [])]);
    var vs := [a, b];
    assert StampsOkUpTo(vs, 2) && 0 in KeptIndices(vs, w, 2) && 1 in KeptIndices(vs, w, 2) by {
      assert Attr(attrs, "start", "") == start && Attr(attrs, "stop", "") == stop;
      assert StampsOk(vs[0]) && StampsOk(vs[1]);
      assert FindText(a.children, "title") == "A" && FindText(b.children, "title") == "A ";
      assert |Key(a)| != |Key(b)|;
      assert IsKept(vs, w, 0) && IsKept(vs, w, 1);
    }
    assert Fixed(a.children) == Fixed(b.children) by {
      OnlyTitleFixed("A");
      OnlyTitleFixed("A ");
      PaddedTitleCleansUp();
    }
  }

  /** No two programmes of the listing share a key of the feed, the key taken before the clean-up. */
  lemma KeptKeysDistinct(vs: seq<Programme>, w: Window, n: nat)
    requires n <= |vs| && StampsOkUpTo(vs, n)
    ensures var ks := KeptIndices(vs, w, n);
            forall i, j :: 0 <= i < j < |ks| ==> Key(vs[ks[i]]) != Key(vs[ks[j]])
  {
    var ks := KeptIndices(vs, w, n);
    forall i, j | 0 <= i < j < |ks| ensures Key(vs[ks[i]]) != Key(vs[ks[j]]) {
      assert ks[i] in ks && ks[j] in ks;
      assert Passes(vs[ks[i]], w);
    }
  }

  /**
   * Every programme that passes the window test is represented in the
   * listing by the first programme with its key, which is at or before it.
   */
  lemma {:induction false} KeptCover(vs: seq<Programme>, w: Window, n: nat, j: nat)
    requires n <= |vs| && StampsOkUpTo(vs, n)
    requires j < n && Passes(vs[j], w)
    ensures exists k :: k in KeptIndices(vs, w, n) && k <= j && Key(vs[k]) == Key(vs[j])
    decreases j
  {
    if IsKept(vs, w, j) {
        assert j in KeptIndices(vs, w, n);
    } else {
      var j' :| 0 <= j' < j && Passes(vs[j'], w) && Key(vs[j']) == Key(vs[j]);
      KeptCover(vs, w, n, j');
    }
  }

  /** The grabber's duplicate test on its list of seen ids decides exactly whether a passing programme is kept. */
  lemma DuplicateTest(vs: seq<Programme>, w: Window, n: nat)
    requires n < |vs| && StampsOkUpTo(vs, n + 1) && Passes(vs[n], w)
    ensures Key(vs[n]) in KeysOf(vs, KeptIndices(vs, w, n)) <==> !IsKept(vs, w, n)
  {
    if Key(vs[n]) in KeysOf(vs, KeptIndices(vs, w, n)) {
      SeenIsDuplicate(vs, w, n);
    }
    if !IsKept(vs, w, n) {
      DuplicateIsSeen(vs, w, n);
    }
  }

  lemma SeenIsDuplicate(vs: seq<Programme>, w: Window, n: nat)
    requires n < |vs| && StampsOkUpTo(vs, n + 1)
    requires Key(vs[n]) in KeysOf(vs, KeptIndices(vs, w, n))
    ensures !IsKept(vs, w, n)
  {
    var ks := KeptIndices(vs, w, n);
    var ids := KeysOf(vs, ks);
    var i :| 0 <= i < |ids| && ids[i] == Key(vs[n]);
    assert ks[i] in ks;
    assert Passes(vs[ks[i]], w) && ks[i] < n;
  }

  lemma DuplicateIsSeen(vs: seq<Programme>, w: Window, n: nat)
    requires n < |vs| && StampsOkUpTo(vs, n + 1) && Passes(vs[n], w) && !IsKept(vs, w, n)
    ensures Key(vs[n]) in KeysOf(vs, KeptIndices(vs, w, n))
  {
    var ks := KeptIndices(vs, w, n);
    var ids := KeysOf(vs, ks);
    var j :| 0 <= j < n && Passes(vs[j], w) && Key(vs[j]) == Key(vs[n]);
    KeptCover(vs, w, n, j);
    var k :| k in ks && k <= j && Key(vs[k]) == Key(vs[j]);
    var i :| 0 <= i < |ks| && ks[i] == k;
    assert ids[i] == Key(vs[n]);
  }

  /** The index `Reached` picks is the first programme that raises. */
  lemma ReachedIs(vs: seq<Programme>, w: Window, n: nat)
    requires n <= |vs| && NoFailureBefore(vs, w, n)
    requires n < |vs| ==> Fails(vs, w, n)
    ensures Reached(vs, w) == n
  {
    ReachedFromIs(vs, w, 0, n);
  }

  lemma {:induction false} ReachedFromIs(vs: seq<Programme>, w: Window, i: nat, n: nat)
    requires i <= n <= |vs| && NoFailureBefore(vs, w, n)
    requires n < |vs| ==> Fails(vs, w, n)
    ensures NoFailureBefore(vs, w, i) && ReachedFrom(vs, w, i) == n
    decreases n - i
  {
    if i < n {
      ReachedFromIs(vs, w, i + 1, n);
      assert StampsOk(vs[i]) && !Fails(vs, w, i);
    }
  }

  /** The programmes kept before the grabber stops, in feed order. */
  function Listed(vs: seq<Programme>, w: Window): (ks: seq<nat>)
    ensures Below(ks, |vs|) && KeptTextsPresent(vs, ks)
    ensures Increasing(ks)
    ensures forall k: nat :: k in ks <==> k < Reached(vs, w) && IsKept(vs, w, k)
  {
    var r := Reached(vs, w);
    KeptTexts(vs, w, r);
    KeptIndices(vs, w, r)
  }

  /** Every kept programme before the first one that raises has the texts the clean-up reads. */
  lemma KeptTexts(vs: seq<Programme>, w: Window, n: nat)
    requires n <= |vs| && NoFailureBefore(vs, w, n)
    ensures KeptTextsPresent(vs, KeptIndices(vs, w, n))
  {
    var ks := KeptIndices(vs, w, n);
    forall i | 0 <= i < |ks| ensures ks[i] < |vs| && TextsPresent(vs[ks[i]].children) {
      assert ks[i] in ks;
    }
  }

  // ---------------------------------------------------------------------
  // The programme loop, one programme at a time

  /**
   * What the programme loop has built after some programmes: the keys it
   * has seen, the positions it kept, the category warnings it logged, and
   * the position of the programme it raised on, if it did.
   */
  datatype Pass = Pass(ids: seq<string>, kept: seq<nat>, warnings: seq<Warning>, failedAt: Option<nat>)

  /** The warning logged while fixing up a programme with these children, if any. */
  function WarningOf(cs: seq<Element>): seq<Warning>
    requires TextsPresent(cs)
  {
    match CategoryWarning(cs)
    case Some(c) => [NoEtsiEquivalent(c)]
    case None => []
  }

  /**
   * One turn of the loop on programme `i`: raise on a bad stamp, skip it
   * outside the window or when its key was seen, otherwise record its key
   * and raise when a text is missing, or keep it and log its warning.
   */
  function Advance(s: Pass, vs: seq<Programme>, w: Window, i: nat): (r: Pass)
    requires i < |vs| && Below(s.kept, i) && KeptTextsPresent(vs, s.kept)
    ensures Below(r.kept, i + 1) && KeptTextsPresent(vs, r.kept)
    ensures s.failedAt.Some? ==> r == s
    ensures r.failedAt.Some? ==> r.failedAt == s.failedAt || r.failedAt == Some(i)
  {
    if s.failedAt.Some? then s
    else if !StampsOk(vs[i]) then s.(failedAt := Some(i))
    else if !Passes(vs[i], w) || Key(vs[i]) in s.ids then s
    else if !TextsPresent(vs[i].children) then s.(ids := s.ids + [Key(vs[i])], failedAt := Some(i))
    else Pass(s.ids + [Key(vs[i])], s.kept + [i], s.warnings + WarningOf(vs[i].children), None)
  }

  /** The loop's state after the first `n` programmes. */
  function Run(vs: seq<Programme>, w: Window, n: nat): (r: Pass)
    requires n <= |vs|
    ensures Below(r.kept, n) && KeptTextsPresent(vs, r.kept)
    ensures r.failedAt.Some? ==> r.failedAt.value < n
  {
    if n == 0 then Pass([], [], [], None) else Advance(Run(vs, w, n - 1), vs, w, n - 1)
  }

  /**
   * The loop agrees with the declarative description: as long as it has
   * not raised, it has kept exactly the programmes that pass the window
   * with a key not seen before, with their keys and warnings; and once it
   * raises, it did so at the first programme that fails, having kept the
   * listed programmes.
   */
  lemma {:induction false} RunMeaning(vs: seq<Programme>, w: Window, n: nat)
    requires n <= |vs|
    ensures Agrees(vs, w, n, Run(vs, w, n))
    decreases n, 1
  {
    if n == 0 {
      RunStart(vs, w);
    } else {
      var i := n - 1;
      assert n == i + 1;
      if Run(vs, w, i).failedAt.Some? {
        RunRaised(vs, w, i);
      } else {
        RunStep(vs, w, i);
      }
    }
  }

  /** Before any programme, nothing has been kept and nothing has failed. */
  lemma RunStart(vs: seq<Programme>, w: Window)
    ensures Agrees(vs, w, 0, Run(vs, w, 0))
  {
    assert KeptFlags(vs, w, 0) == [];
  }

  /** After the loop has raised, one more programme keeps the agreement. */
  lemma {:induction false} RunRaised(vs: seq<Programme>, w: Window, i: nat)
    requires i < |vs| && Run(vs, w, i).failedAt.Some?
    ensures Agrees(vs, w, i + 1, Run(vs, w, i + 1))
    decreases i + 1, 0
  {
    RunMeaning(vs, w, i);
    assert Run(vs, w, i + 1) == Run(vs, w, i);
    assert !NoFailureBefore(vs, w, i + 1) by {
      if NoFailureBefore(vs, w, i + 1) {
        assert NoFailureBefore(vs, w, i);
      }
    }
  }

  /**
   * `s` agrees with the declarative description after `n` programmes: it
   * has not raised exactly when none of them fails; until then it has kept
   * the positions that are kept, with their keys and warnings; once raised,
   * it did so at the programme the grabber reaches, having kept the listed ones.
   */
  predicate Agrees(vs: seq<Programme>, w: Window, n: nat, s: Pass)
    requires n <= |vs| && KeptTextsPresent(vs, s.kept)
  {
    (s.failedAt.None? <==> NoFailureBefore(vs, w, n))
    && (s.failedAt.None? ==>
          s.kept == KeptIndices(vs, w, n) && s.ids == KeysOf(vs, s.kept)
          && s.warnings == ProgrammeWarnings(vs, s.kept))
    && (s.failedAt.Some? ==>
          s.failedAt.value == Reached(vs, w) && s.kept == Listed(vs, w)
          && s.warnings == ProgrammeWarnings(vs, s.kept))
  }

  /** One turn of the loop, from a state that has not raised, keeps the agreement. */
  lemma {:induction false} RunStep(vs: seq<Programme>, w: Window, i: nat)
    requires i < |vs| && Run(vs, w, i).failedAt.None?
    ensures Agrees(vs, w, i + 1, Run(vs, w, i + 1))
    decreases i + 1, 0
  {
    RunMeaning(vs, w, i);
    if !StampsOk(vs[i]) {
      FailsAt(vs, w, i);
    } else {
      StampedStep(vs, w, i);
      if Passes(vs[i], w) {
        DuplicateTest(vs, w, i);
      }
      if !IsKept(vs, w, i) {
        Skip(vs, w, i);
      } else if !TextsPresent(vs[i].children) {
        FailsAt(vs, w, i);
      } else {
        Keep(vs, w, i);
      }
    }
  }

  /** Programme `i` fails after none before it did: the grabber raises there, having listed what it kept so far. */
  lemma FailsAt(vs: seq<Programme>, w: Window, i: nat)
    requires i < |vs| && NoFailureBefore(vs, w, i) && Fails(vs, w, i)
    ensures Reached(vs, w) == i && Listed(vs, w) == KeptIndices(vs, w, i)
    ensures !NoFailureBefore(vs, w, i + 1)
  {
    ReachedIs(vs, w, i);
  }

  /** Once every programme has been looked at, the loop's state is the listing. */
  lemma RunComplete(vs: seq<Programme>, w: Window)
    ensures var s := Run(vs, w, |vs|);
            (s.failedAt.None? <==> Reached(vs, w) == |vs|)
            && s.kept == Listed(vs, w) && s.warnings == ProgrammeWarnings(vs, Listed(vs, w))
  {
    RunMeaning(vs, w, |vs|);
    if Run(vs, w, |vs|).failedAt.None? {
      ReachedIs(vs, w, |vs|);
    }
  }

  /** With the stamps of programme `n` good, the first `n + 1` programmes all have good stamps. */
  lemma StampedStep(vs: seq<Programme>, w: Window, n: nat)
    requires n < |vs| && NoFailureBefore(vs, w, n) && StampsOk(vs[n])
    ensures StampsOkUpTo(vs, n + 1)
  {
  }

  /** A programme that is not kept leaves the kept positions as they were and cannot raise. */
  lemma Skip(vs: seq<Programme>, w: Window, n: nat)
    requires n < |vs| && StampsOkUpTo(vs, n + 1) && NoFailureBefore(vs, w, n) && !IsKept(vs, w, n)
    ensures NoFailureBefore(vs, w, n + 1)
    ensures KeptIndices(vs, w, n + 1) == KeptIndices(vs, w, n)
  {
    KeptStep(vs, w, n);
    assert KeptIndices(vs, w, n) + [] == KeptIndices(vs, w, n);
  }

  /** The kept positions grow by programme `n` exactly when it is kept. */
  lemma KeptStep(vs: seq<Programme>, w: Window, n: nat)
    requires n < |vs| && StampsOkUpTo(vs, n + 1)
    ensures KeptIndices(vs, w, n + 1) == KeptIndices(vs, w, n) + (if IsKept(vs, w, n) then [n] else [])
  {
    assert KeptFlags(vs, w, n + 1) == KeptFlags(vs, w, n) + [IsKept(vs, w, n)];
    PositionsSnoc(KeptFlags(vs, w, n), IsKept(vs, w, n));
  }

  /** Keeping programme `n` adds it at the end of the kept positions, their keys and their warnings. */
  lemma Keep(vs: seq<Programme>, w: Window, n: nat)
    requires n < |vs| && StampsOkUpTo(vs, n + 1) && NoFailureBefore(vs, w, n) && IsKept(vs, w, n)
    requires TextsPresent(vs[n].children)
    ensures NoFailureBefore(vs, w, n + 1)
    ensures var ks := KeptIndices(vs, w, n);
            KeptTextsPresent(vs, ks) && KeptTextsPresent(vs, ks + [n])
            && KeptIndices(vs, w, n + 1) == ks + [n]
            && KeysOf(vs, ks + [n]) == KeysOf(vs, ks) + [Key(vs[n])]
            && ProgrammeWarnings(vs, ks + [n]) == ProgrammeWarnings(vs, ks) + WarningOf(vs[n].children)
  {
    KeptStep(vs, w, n);
    KeptTexts(vs, w, n);
    var ks := KeptIndices(vs, w, n);
    KeysOfSnoc(vs, ks, n);
    WarningsSnoc(vs, ks, n);
  }

  lemma KeysOfSnoc(vs: seq<Programme>, ks: seq<nat>, k: nat)
    requires Below(ks, |vs|) && k < |vs|
    ensures KeysOf(vs, ks + [k]) == KeysOf(vs, ks) + [Key(vs[k])]
  {
    assert (ks + [k])[..|ks|] == ks;
  }

  lemma WarningsSnoc(vs: seq<Programme>, ks: seq<nat>, k: nat)
    requires KeptTextsPresent(vs, ks) && k < |vs| && TextsPresent(vs[k].children)
    ensures KeptTextsPresent(vs, ks + [k])
    ensures ProgrammeWarnings(vs, ks + [k]) == ProgrammeWarnings(vs, ks) + WarningOf(vs[k].children)
  {
    assert (ks + [k])[..|ks|] == ks;
  }

  lemma ProgrammeNodesSnoc(ps: seq<ProgrammeNode>, ks: seq<nat>, k: nat)
    requires Below(ks, |ps|) && k < |ps|
    ensures ProgrammeNodes(ps, ks + [k]) == ProgrammeNodes(ps, ks) + [ProgrammeElement(ps[k])]
  {
    assert (ks + [k])[..|ks|] == ks;
  }

  lemma ChannelNodesSnoc(chans: seq<Channel>, ks: seq<nat>, k: nat)
    requires Below(ks, |chans|) && k < |chans|
    ensures ChannelNodes(chans, ks + [k]) == ChannelNodes(chans, ks) + [ChannelNode(chans[k])]
  {
    assert (ks + [k])[..|ks|] == ks;
  }

  /** Once the loop has raised, later turns change nothing. */
  lemma {:induction false} RunStops(vs: seq<Programme>, w: Window, m: nat, n: nat)
    requires m <= n <= |vs| && Run(vs, w, m).failedAt.Some?
    ensures Run(vs, w, n) == Run(vs, w, m)
    decreases n - m
  {
    if m < n {
      var i := n - 1;
      assert n == i + 1;
      RunStops(vs, w, m, i);
    }
  }

  // ---------------------------------------------------------------------
  // The grabber

  /** The channel elements whose id was selected, in feed order. */
  method SelectChannels(chans: seq<Channel>, xmltvIds: seq<string>) returns (children: seq<Node>)
    ensures children == ChannelNodes(chans, Selected(chans, xmltvIds))
  {
    children := [];
    ghost var flags := SelectedFlags(chans, xmltvIds);
    for n := 0 to |chans|
      invariant children == ChannelNodes(chans, Positions(flags[..n]))
    {
      var channel := chans[n];
      assert flags[..n + 1] == flags[..n] + [flags[n]];
      PositionsSnoc(flags[..n], flags[n]);
      if channel.id.Some? && channel.id.value in xmltvIds {
        ChannelNodesSnoc(chans, Positions(flags[..n]), n);
        children := children + [ChannelNode(channel)];
      }
    }
    assert flags[..|chans|] == flags;
  }

  /** A programme that raises ends the loop with what had been kept before it. */
  lemma RaisedTurn(vs: seq<Programme>, w: Window, n: nat)
    requires n < |vs| && Run(vs, w, n).failedAt.None?
    requires !StampsOk(vs[n]) || (Passes(vs[n], w) && Key(vs[n]) !in Run(vs, w, n).ids && !TextsPresent(vs[n].children))
    ensures var s := Run(vs, w, |vs|);
            s.failedAt == Some(n) && s.kept == Run(vs, w, n).kept && s.warnings == Run(vs, w, n).warnings
  {
    RunStops(vs, w, n + 1, |vs|);
  }

  /** A skipped programme leaves the loop's state as it was. */
  lemma SkippedTurn(vs: seq<Programme>, w: Window, n: nat)
    requires n < |vs| && Run(vs, w, n).failedAt.None?
    requires StampsOk(vs[n]) && (!Passes(vs[n], w) || Key(vs[n]) in Run(vs, w, n).ids)
    ensures Run(vs, w, n + 1) == Run(vs, w, n)
  {
  }

  /** A programme the loop has not reached yet is as it was in the feed. */
  lemma NotYetFixed(vs: seq<Programme>, w: Window, n: nat)
    requires n < |vs|
    ensures Applied(vs, Run(vs, w, n).kept)[n] == vs[n]
  {
    AppliedAt(vs, Run(vs, w, n).kept, n);
  }

  /**
   * A kept programme adds its key, its position and its warning, is fixed
   * up, and its element is appended.
   */
  lemma KeptTurn(vs: seq<Programme>, w: Window, n: nat, ps: seq<ProgrammeNode>)
    requires n < |vs| == |ps| && Run(vs, w, n).failedAt.None?
    requires StampsOk(vs[n]) && Passes(vs[n], w) && Key(vs[n]) !in Run(vs, w, n).ids && TextsPresent(vs[n].children)
    ensures var s := Run(vs, w, n);
            Run(vs, w, n + 1) == Pass(s.ids + [Key(vs[n])], s.kept + [n], s.warnings + WarningOf(vs[n].children), None)
            && Applied(vs, s.kept + [n]) == Applied(vs, s.kept)[n := Programme(vs[n].attrs, Fixed(vs[n].children))]
            && ProgrammeNodes(ps, s.kept + [n]) == ProgrammeNodes(ps, s.kept) + [ProgrammeElement(ps[n])]
  {
    var s := Run(vs, w, n);
    AppliedSnoc(vs, s.kept, n);
    ProgrammeNodesSnoc(ps, s.kept, n);
  }

  /** What the loop does with one programme. */
  datatype Turn = Raised | Skipped | Kept(id: string, warning: Option<string>)

  /**
   * One turn of the programme loop: raise on a stamp that does not parse,
   * skip a programme outside the window or whose key was seen, raise when
   * a text is missing, and otherwise fix the programme up in place.
   */
  method Visit(ps: seq<ProgrammeNode>, n: nat, w: Window, programIds: seq<string>, ghost before: seq<Programme>) returns (turn: Turn)
    requires n < |ps| && forall i, j :: 0 <= i < j < |ps| ==> ps[i] != ps[j]
    requires Values(ps) == before
    modifies ps[n]
    ensures var v := before[n];
            match turn
            case Raised =>
              (!StampsOk(v) || (Passes(v, w) && Key(v) !in programIds && !TextsPresent(v.children)))
              && Values(ps) == before
            case Skipped =>
              StampsOk(v) && (!Passes(v, w) || Key(v) in programIds)
              && Values(ps) == before
            case Kept(id, warning) =>
              StampsOk(v) && Passes(v, w) && Key(v) !in programIds && TextsPresent(v.children)
              && id == Key(v) && warning == CategoryWarning(v.children)
              && Values(ps) == before[n := Programme(v.attrs, Fixed(v.children))]
  {
    var program := ps[n];
    var stop := Attr(program.attrs, "stop", "");
    var start := Attr(program.attrs, "start", "");
    if !StampOk(stop) || !StampOk(start) {
      return Raised;
    }
    if DayOf(stop) < w.first || DayOf(start) > w.last {
      return Skipped;
    }
    var programId := Key(program.Value());
    if programId in programIds {
      return Skipped;
    }
    if !TextsPresent(program.children) {
      return Raised;
    }
    var warning := UpdateProgramme(program);
    forall j | 0 <= j < |ps|
      ensures Values(ps)[j] == before[n := Programme(before[n].attrs, Fixed(before[n].children))][j]
    {
      if j != n {
        assert ps[j] != program;
      }
    }
    return Kept(programId, warning);
  }

  /** The programmes once those at positions `ks` have been fixed up. */
  function Applied(vs: seq<Programme>, ks: seq<nat>): (r: seq<Programme>)
    requires KeptTextsPresent(vs, ks)
    ensures |r| == |vs|
  {
    if ks == [] then vs
    else
      var k := ks[|ks| - 1];
      Applied(vs, ks[..|ks| - 1])[k := Programme(vs[k].attrs, Fixed(vs[k].children))]
  }

  /** Fixing up leaves every attribute alone and changes the children of exactly the fixed-up programmes. */
  lemma {:induction false} AppliedAt(vs: seq<Programme>, ks: seq<nat>, j: nat)
    requires KeptTextsPresent(vs, ks) && j < |vs|
    ensures Applied(vs, ks)[j].attrs == vs[j].attrs
    ensures Applied(vs, ks)[j].children == if j in ks then Fixed(vs[j].children) else vs[j].children
  {
    if ks != [] {
      var init := ks[..|ks| - 1];
      AppliedAt(vs, init, j);
      assert j in ks <==> j in init || j == ks[|ks| - 1];
    }
  }

  lemma AppliedSnoc(vs: seq<Programme>, ks: seq<nat>, n: nat)
    requires KeptTextsPresent(vs, ks) && n < |vs| && TextsPresent(vs[n].children)
    ensures KeptTextsPresent(vs, ks + [n])
    ensures Applied(vs, ks + [n]) == Applied(vs, ks)[n := Programme(vs[n].attrs, Fixed(vs[n].children))]
  {
    assert (ks + [n])[..|ks|] == ks;
  }

  /**
   * The programme loop: every programme is checked against the window,
   * kept once per key, fixed up in place and appended. `ok` is false when
   * the grabber raises on a programme; the warnings are those logged until then.
   */
  method ListProgrammes(ps: seq<ProgrammeNode>, w: Window, ghost vs: seq<Programme>) returns (ok: bool, nodes: seq<Node>, warnings: seq<Warning>)
    requires |vs| == |ps|
    requires forall i, j :: 0 <= i < j < |ps| ==> ps[i] != ps[j]
    requires Values(ps) == vs
    modifies set p | p in ps
    ensures var s := Run(vs, w, |vs|);
            (ok <==> s.failedAt.None?)
            && nodes == ProgrammeNodes(ps, s.kept)
            && warnings == s.warnings
            && Values(ps) == Applied(vs, s.kept)
  {
    ghost var kept: seq<nat> := [];
    var programIds: seq<string> := [];
    nodes := [];
    warnings := [];
    for n := 0 to |ps|
      invariant Run(vs, w, n) == Pass(programIds, kept, warnings, None)
      invariant Values(ps) == Applied(vs, kept)
      invariant nodes == ProgrammeNodes(ps, kept)
    {
      NotYetFixed(vs, w, n);
      var turn := Visit(ps, n, w, programIds, Applied(vs, kept));
      match turn
      case Raised =>
        RaisedTurn(vs, w, n);
        ok := false;
        return;
      case Skipped =>
        SkippedTurn(vs, w, n);
      case Kept(id, warning) =>
        KeptTurn(vs, w, n, ps);
        programIds := programIds + [id];
        warnings := warnings + if warning.Some? then [NoEtsiEquivalent(warning.value)] else [];
        nodes := nodes + [ProgrammeElement(ps[n])];
        kept := kept + [n];
    }
    ok := true;
  }

  /**
   * The grabber object: the parsed feed, the channel catalogue built from
   * it, and the generator name and URL written into every listing.
   */
  class Grabber {
    const xmltv: Feed
    const channels: seq<Entry>
    const generator: Option<string>
    const generatorUrl: Option<string>

    /** Distinct programme elements of the feed are distinct objects. */
    predicate Valid() {
      forall i, j :: 0 <= i < j < |xmltv.programmes| ==> xmltv.programmes[i] != xmltv.programmes[j]
    }

    constructor (feed: Feed, generator: Option<string>, generatorUrl: Option<string>)
      requires forall i, j :: 0 <= i < j < |feed.programmes| ==> feed.programmes[i] != feed.programmes[j]
      ensures Valid()
      ensures xmltv == feed && this.generator == generator && this.generatorUrl == generatorUrl
      ensures IsCatalogueOf(channels, Pairs(feed.channels))
    {
      var catalogue := RetrieveAvailableChannels(feed.channels);
      xmltv := feed;
      channels := catalogue;
      this.generator := generator;
      this.generatorUrl := generatorUrl;
    }

    /** The selected channel elements, in feed order. */
    function ChannelPart(xmltvIds: seq<string>): seq<Node> {
      ChannelNodes(xmltv.channels, Selected(xmltv.channels, xmltvIds))
    }

    /**
     * `_get_xmltv_data`: builds the listing for the selected channel ids,
     * `days` days from `offset` days after `today` (a day number), cleaning
     * up every programme it keeps. `doc` is `None` when the grabber raises
     * on a programme; the warnings are those logged until then.
     */
    method GetXmltvData(xmltvIds: seq<string>, days: int, offset: int, channelsOnly: bool, today: int)
      returns (doc: Option<Document>, warnings: seq<Warning>)
      requires Valid()
      modifies set p | p in xmltv.programmes
      ensures channelsOnly ==>
                doc == Some(Document(RootAttrs(generator, generatorUrl), ChannelPart(xmltvIds)))
                && warnings == ClampWarnings(days, offset)
                && Values(xmltv.programmes) == old(Values(xmltv.programmes))
      ensures !channelsOnly && !WindowComputable(DayWindow(today, days, offset)) ==>
                doc.None?
                && warnings == ClampWarnings(days, offset)
                && Values(xmltv.programmes) == old(Values(xmltv.programmes))
      ensures !channelsOnly && WindowComputable(DayWindow(today, days, offset)) ==>
                var vs := old(Values(xmltv.programmes));
                var w := DayWindow(today, days, offset);
                var r := Reached(vs, w);
                var ks := Listed(vs, w);
                (doc.Some? <==> r == |vs|)
                && (doc.Some? ==>
                      doc.value == Document(RootAttrs(generator, generatorUrl),
                                            ChannelPart(xmltvIds) + ProgrammeNodes(xmltv.programmes, ks)))
                && warnings == ClampWarnings(days, offset) + ProgrammeWarnings(vs, ks)
                && Values(xmltv.programmes) == Applied(vs, ks)
    {
      warnings := [];
      var span := days;
      if days + offset > MaxDays {
        warnings := [DaysClamped(MaxDays)];
        span := if MaxDays - offset < MaxDays then MaxDays - offset else MaxDays;
      }
      var attrs := RootAttrs(generator, generatorUrl);
      var children := SelectChannels(xmltv.channels, xmltvIds);
      if channelsOnly {
        doc := Some(Document(attrs, children));
        return;
      }
      var w := Window(today + offset, today + span + offset - 1);
      assert w == DayWindow(today, days, offset);
      if !IsDate(w.first) || !IsDate(w.last) {
        doc := None;
        return;
      }
      var ok, nodes, logged := ListProgrammes(xmltv.programmes, w, old(Values(xmltv.programmes)));
      RunComplete(old(Values(xmltv.programmes)), w);
      warnings := warnings + logged;
      if !ok {
        doc := None;
        return;
      }
      doc := Some(Document(attrs, children + nodes));
    }
  }
}
