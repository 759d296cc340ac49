// The interactive channel selection of `_configure`: one answer per
// catalogue channel, re-prompting on anything that is not a choice, with
// `all` and `none` answering for every channel that follows.

module Configure {
  import opened Wrappers
  import opened Text
  import opened Catalogue
  import opened Config

  /** The choices offered at the prompt; an empty answer means `no`. */
  const Choices: seq<string> := ["yes", "no", "all", "none"]

  predicate IsChoice(answer: string) {
    answer in Choices || answer == ""
  }

  /** An answer that decides every channel still to come. */
  predicate Sticky(answer: string) {
    answer == "all" || answer == "none"
  }

  /**
   * The answers the prompt accepts from these input lines, in order: each
   * line is stripped, and a line that is not a choice is asked again.
   */
  function Answers(inputs: seq<string>): (r: seq<string>)
    ensures |r| <= |inputs|
    ensures forall k :: 0 <= k < |r| ==> IsChoice(r[k])
  {
    if inputs == [] then []
    else
      var answer := Strip(inputs[0]);
      (if IsChoice(answer) then [answer] else []) + Answers(inputs[1..])
  }

  /** `xs` in front of a selection, or still no selection. */
  function Prefix(xs: seq<string>, rest: Option<seq<string>>): (r: Option<seq<string>>)
  {
    if rest.Some? then Some(xs + rest.value) else None
  }

  /**
   * The ids selected for `xmltvIds` given the accepted answers and the two
   * flags; `None` when the answers run out while a channel is still
   * undecided.
   */
  function Choose(xmltvIds: seq<string>, answers: seq<string>, selectAll: bool, selectNone: bool): Option<seq<string>>
    decreases |xmltvIds|
  {
    if xmltvIds == [] then Some([])
    else if selectAll || selectNone then
      Prefix(if selectAll then [xmltvIds[0]] else [], Choose(xmltvIds[1..], answers, selectAll, selectNone))
    else if answers == [] then None
    else
      var answer := answers[0];
      Prefix(if answer == "yes" || answer == "all" then [xmltvIds[0]] else [],
             Choose(xmltvIds[1..], answers[1..], answer == "all", answer == "none"))
  }

  // ---------------------------------------------------------------------
  // A closed form of the selection

  /** The ids among the first `k` that were answered `yes`. */
  function Picked(xmltvIds: seq<string>, answers: seq<string>, k: nat): (r: seq<string>)
    requires k <= |xmltvIds| && k <= |answers|
    ensures |r| <= k
    ensures forall x :: x in r ==> x in xmltvIds[..k]
  {
    if k == 0 then []
    else
      assert xmltvIds[1..][..k - 1] == xmltvIds[..k][1..];
      (if answers[0] == "yes" then [xmltvIds[0]] else []) + Picked(xmltvIds[1..], answers[1..], k - 1)
  }

  /** The index of the first `all` or `none` among the first `bound` answers, or `bound`. */
  function FirstSticky(answers: seq<string>, bound: nat): (k: nat)
    requires bound <= |answers|
    ensures k <= bound
    ensures forall j :: 0 <= j < k ==> !Sticky(answers[j])
    ensures k < bound ==> Sticky(answers[k])
  {
    if bound == 0 || Sticky(answers[0]) then 0
    else 1 + FirstSticky(answers[1..], bound - 1)
  }

  /**
   * The selection written out: the `yes` channels before the first sticky
   * answer, then every remaining channel if that answer is `all`; without a
   * sticky answer, one answer is needed per channel.
   */
  function Reference(xmltvIds: seq<string>, answers: seq<string>): Option<seq<string>> {
    var bound := if |answers| < |xmltvIds| then |answers| else |xmltvIds|;
    var k := FirstSticky(answers, bound);
    if k < bound then Some(Picked(xmltvIds, answers, k) + if answers[k] == "all" then xmltvIds[k..] else [])
    else if |xmltvIds| <= |answers| then Some(Picked(xmltvIds, answers, |xmltvIds|))
    else None
  }

  /** Once `all` is set, every remaining channel is selected. */
  lemma {:induction false} ChooseAll(xmltvIds: seq<string>, answers: seq<string>)
    ensures Choose(xmltvIds, answers, true, false) == Some(xmltvIds)
    decreases |xmltvIds|
  {
    if xmltvIds != [] {
      ChooseAll(xmltvIds[1..], answers);
      assert [xmltvIds[0]] + xmltvIds[1..] == xmltvIds;
    }
  }

  /** Once `none` is set, no remaining channel is selected. */
  lemma {:induction false} ChooseNone(xmltvIds: seq<string>, answers: seq<string>)
    ensures Choose(xmltvIds, answers, false, true) == Some([])
    decreases |xmltvIds|
  {
    if xmltvIds != [] {
      ChooseNone(xmltvIds[1..], answers);
      PrefixEmpty(Choose(xmltvIds[1..], answers, false, true));
    }
  }

  /** Answering the first channel with anything but `all` or `none` leaves the closed form of the rest. */
  lemma ReferenceStep(xmltvIds: seq<string>, answers: seq<string>)
    requires xmltvIds != [] && answers != [] && !Sticky(answers[0])
    ensures Reference(xmltvIds, answers)
         == Prefix(if answers[0] == "yes" then [xmltvIds[0]] else [], Reference(xmltvIds[1..], answers[1..]))
  {
    var bound := if |answers| < |xmltvIds| then |answers| else |xmltvIds|;
    var k := FirstSticky(answers, bound);
    var k' := FirstSticky(answers[1..], bound - 1);
    assert k == k' + 1;
    var head := if answers[0] == "yes" then [xmltvIds[0]] else [];
    if k < bound {
      assert answers[k] == answers[1..][k'];
      assert xmltvIds[k..] == xmltvIds[1..][k'..];
      var tail := if answers[k] == "all" then xmltvIds[k..] else [];
      assert Picked(xmltvIds, answers, k) == head + Picked(xmltvIds[1..], answers[1..], k');
      assert head + (Picked(xmltvIds[1..], answers[1..], k') + tail) == (head + Picked(xmltvIds[1..], answers[1..], k')) + tail;
    } else {
      assert |xmltvIds| <= |answers| <==> |xmltvIds[1..]| <= |answers[1..]|;
    }
  }

  /** The step-by-step selection and its closed form agree on every input. */
  lemma {:induction false} ChooseIsReference(xmltvIds: seq<string>, answers: seq<string>)
    ensures Choose(xmltvIds, answers, false, false) == Reference(xmltvIds, answers)
    decreases |xmltvIds|
  {
    if xmltvIds == [] || answers == [] {
    } else if answers[0] == "all" {
      ChooseAll(xmltvIds[1..], answers[1..]);
      assert [] + xmltvIds[0..] == [xmltvIds[0]] + xmltvIds[1..];
    } else if answers[0] == "none" {
      ChooseNone(xmltvIds[1..], answers[1..]);
    } else {
      ChooseIsReference(xmltvIds[1..], answers[1..]);
      ReferenceStep(xmltvIds, answers);
    }
  }

  // ---------------------------------------------------------------------
  // The prompt loop

  /** The catalogue's ids, in catalogue order. */
  function Ids(channels: seq<Entry>): (r: seq<string>)
    ensures |r| == |channels| && forall k :: 0 <= k < |r| ==> r[k] == channels[k].0
  {
    seq(|channels|, k requires 0 <= k < |channels| => channels[k].0)
  }

  lemma PrefixEmpty(rest: Option<seq<string>>)
    ensures Prefix([], rest) == rest
  {
    if rest.Some? {
      assert [] + rest.value == rest.value;
    }
  }

  lemma PrefixAppend(xs: seq<string>, ys: seq<string>, rest: Option<seq<string>>)
    ensures Prefix(xs, Prefix(ys, rest)) == Prefix(xs + ys, rest)
  {
    if rest.Some? {
      assert xs + (ys + rest.value) == (xs + ys) + rest.value;
    }
  }

  /**
   * Read input lines from `pos` until one strips to a choice; `next` is the
   * position after it, or `None` when the input runs out first.
   */
  method Ask(inputs: seq<string>, pos: nat) returns (answer: string, next: Option<nat>)
    requires pos <= |inputs|
    ensures next.None? ==> Answers(inputs[pos..]) == []
    ensures next.Some? ==> pos < next.value <= |inputs| && IsChoice(answer)
                           && Answers(inputs[pos..]) == [answer] + Answers(inputs[next.value..])
  {
    var k := pos;
    while true
      invariant pos <= k <= |inputs| && Answers(inputs[pos..]) == Answers(inputs[k..])
      decreases |inputs| - k
    {
      if k == |inputs| {
        return "", None;
      }
      assert inputs[k..][1..] == inputs[k + 1..];
      answer := Strip(inputs[k]);
      k := k + 1;
      if IsChoice(answer) {
        return answer, Some(k);
      }
    }
  }

  /** A channel left undecided when the input runs out fails the selection. */
  lemma ChooseUnanswered(xmltvIds: seq<string>, selectAll: bool, selectNone: bool)
    requires xmltvIds != [] && !selectAll && !selectNone
    ensures Choose(xmltvIds, [], selectAll, selectNone).None?
  {
  }

  /** Deciding channel `n`, by a flag already set or by the answer just read. */
  lemma ChooseTurn(xmltvIds: seq<string>, n: nat, answers: seq<string>, decided: bool,
                   selectAll: bool, selectNone: bool, answer: string, rest: seq<string>)
    requires n < |xmltvIds|
    requires decided ==> answers == rest && (selectAll ==> answer == "all") && (selectNone ==> answer == "none")
    requires !decided ==> answers == [answer] + rest && selectAll == (answer == "all") && selectNone == (answer == "none")
    requires decided ==> selectAll || selectNone
    ensures Choose(xmltvIds[n..], answers, decided && selectAll, decided && selectNone)
         == Prefix(if selectAll || answer == "yes" then [xmltvIds[n]] else [], Choose(xmltvIds[n + 1..], rest, selectAll, selectNone))
  {
    assert xmltvIds[n..][1..] == xmltvIds[n + 1..];
    if !decided {
      assert answers[1..] == rest;
    }
  }

  /**
   * Ask for each catalogue channel in turn and write the selection.
   * `inputs` are the lines the prompt reads; when they run out before
   * every channel is decided nothing is written (`input()` raises).
   */
  method Configure(channels: seq<Entry>, inputs: seq<string>) returns (selected: Option<seq<string>>, written: Option<string>)
    ensures selected == Choose(Ids(channels), Answers(inputs), false, false)
    ensures selected == Reference(Ids(channels), Answers(inputs))
    ensures written.Some? <==> selected.Some?
    ensures written.Some? ==> written.value == Written(selected.value)
  {
    ghost var ids := Ids(channels);
    var xmltvIds: seq<string> := [];
    var selectAll, selectNone := false, false;
    var answer := "";
    var pos := 0;
    ChooseIsReference(ids, Answers(inputs));
    assert inputs[0..] == inputs && ids[0..] == ids;
    PrefixEmpty(Choose(ids, Answers(inputs), false, false));
    for n := 0 to |channels|
      invariant pos <= |inputs|
      invariant selectAll ==> answer == "all"
      invariant selectNone ==> answer == "none"
      invariant Choose(ids, Answers(inputs), false, false)
             == Prefix(xmltvIds, Choose(ids[n..], Answers(inputs[pos..]), selectAll, selectNone))
    {
      ghost var answers := Answers(inputs[pos..]);
      ghost var decided := selectAll || selectNone;
      if !selectAll && !selectNone {
        var next;
        answer, next := Ask(inputs, pos);
        if next.None? {
          ChooseUnanswered(ids[n..], selectAll, selectNone);
          selected, written := None, None;
          return;
        }
        pos := next.value;
        selectAll := answer == "all";
        selectNone := answer == "none";
      }
      var chosen := if selectAll || answer == "yes" then [channels[n].0] else [];
      ChooseTurn(ids, n, answers, decided, selectAll, selectNone, answer, Answers(inputs[pos..]));
      PrefixAppend(xmltvIds, chosen, Choose(ids[n + 1..], Answers(inputs[pos..]), selectAll, selectNone));
      xmltvIds := xmltvIds + chosen;
    }
    assert ids[|channels|..] == [] && xmltvIds + [] == xmltvIds;
    selected := Some(xmltvIds);
    var text := WriteConfiguration(xmltvIds);
    written := Some(text);
  }

  /** Whatever the answers, only catalogue ids are selected. */
  lemma SelectionFromCatalogue(xmltvIds: seq<string>, answers: seq<string>)
    requires Choose(xmltvIds, answers, false, false).Some?
    ensures var r := Choose(xmltvIds, answers, false, false).value;
            forall x :: x in r ==> x in xmltvIds
  {
    ChooseIsReference(xmltvIds, answers);
    var bound := if |answers| < |xmltvIds| then |answers| else |xmltvIds|;
    var k := FirstSticky(answers, bound);
    if k < bound {
      assert forall x :: x in xmltvIds[k..] ==> x in xmltvIds;
    } else {
      assert xmltvIds[..|xmltvIds|] == xmltvIds;
    }
  }
}
