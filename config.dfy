/**
 * The configuration file: one `channel=<id>` line per selected channel.
 * Reading keeps the group of every line that matches
 * `^\s*channel\s*=\s*(.+)\s*$` (Python `re.search`, so `.` is any character
 * but `\n`, `\s` is `Text.IsSpace` and `$` matches at the end or before a
 * final `\n`); writing prints `channel=<id>` and a newline per id.
 */
module Config {
  import opened Wrappers
  import opened Text

  // ---------------------------------------------------------------------
  // The regular expression

  predicate NoNewline(s: string) {
    forall i :: 0 <= i < |s| ==> s[i] != '\n'
  }

  /**
   * `line[..j + 1]` is `\s*channel\s*=`, with the keyword starting at `i`:
   * the part of the pattern before the group.
   */
  predicate HeaderSplit(line: string, i: nat, j: nat) {
    i + 7 <= j < |line| && AllSpace(line[..i]) && line[i..i + 7] == "channel"
    && AllSpace(line[i + 7..j]) && line[j] == '='
  }

  /**
   * With the header ending before `e`, `\s*(.+)\s*$` matches the rest of the
   * line with the group spanning `line[s..t]`.
   */
  predicate GroupSplit(line: string, e: nat, s: nat, t: nat) {
    e <= s < t <= |line| && AllSpace(line[e..s]) && NoNewline(line[s..t]) && AllSpace(line[t..])
  }

  /** The first `\n` at or after `from`, or the end of the line. */
  function NewlineFrom(line: string, from: nat): (q: nat)
    requires from <= |line|
    ensures from <= q <= |line| && NoNewline(line[from..q])
    ensures q < |line| ==> line[q] == '\n'
    decreases |line| - from
  {
    if from == |line| || line[from] == '\n' then from
    else
      var q := NewlineFrom(line, from + 1);
      assert line[from..q] == [line[from]] + line[from + 1..q];
      q
  }

  /** Where the white space starting at `from` ends. */
  function SpaceEnd(line: string, from: nat): (j: nat)
    requires from <= |line|
    ensures from <= j <= |line| && AllSpace(line[from..j])
    ensures j == |line| || !IsSpace(line[j])
  {
    var n := LeadingSpace(line[from..]);
    assert line[from..from + n] == line[from..][..n];
    from + n
  }

  /**
   * Where the header ends: the leading white space, `channel`, white space
   * and `=` are each matched greedily, and white space cannot stand for a
   * letter of `channel` or for `=`, so there is only one way to match them.
   */
  function Header(line: string): (r: Option<nat>)
    ensures r.Some? ==> 0 < r.value <= |line| && HeaderSplit(line, LeadingSpace(line), r.value - 1)
  {
    var i := LeadingSpace(line);
    if i + 7 <= |line| && line[i..i + 7] == "channel" then
      var j := SpaceEnd(line, i + 7);
      if j < |line| && line[j] == '=' then Some(j + 1) else None
    else None
  }

  /**
   * The group tried from `s` down to `e`, as the regex engine backtracks
   * the `\s*` before it: from a start `s`, `(.+)` first takes every
   * character up to the next `\n`, and giving characters back only helps
   * when what follows is white space, so the longest group is the one kept.
   */
  function GroupFrom(line: string, e: nat, s: nat): (r: Option<(nat, nat)>)
    requires e <= s <= |line| && AllSpace(line[e..s])
    ensures r.Some? ==> e <= r.value.0 <= s && GroupSplit(line, e, r.value.0, r.value.1)
    decreases s
  {
    var q := NewlineFrom(line, s);
    if s < q && TrailingSpace(line, s + 1) <= q then
      assert AllSpace(line[q..]) by {
        var m := TrailingSpace(line, s + 1);
        forall k | q <= k < |line| ensures IsSpace(line[k]) {
          assert line[k] == line[m..][k - m];
        }
      }
      Some((s, q))
    else if s == e then None
    else
      AllSpaceShrink(line, e, s);
      GroupFrom(line, e, s - 1)
  }

  /** The span of the group when `re.search` finds a match. */
  function Match(line: string): (r: Option<(nat, nat)>)
  {
    match Header(line)
    case None => None
    case Some(e) => GroupFrom(line, e, SpaceEnd(line, e))
  }

  /** `match.group(1)` when the line matches, `None` otherwise. */
  function ParseLine(line: string): (r: Option<string>)
    ensures r.Some? ==> r.value != [] && NoNewline(r.value) && |r.value| + 8 <= |line|
  {
    match Match(line)
    case None => None
    case Some((s, t)) => Some(line[s..t])
  }

  lemma AllSpaceShrink(line: string, e: nat, s: nat)
    requires e < s <= |line| && AllSpace(line[e..s])
    ensures AllSpace(line[e..s - 1])
  {
    assert line[e..s - 1] == line[e..s][..s - 1 - e];
  }

  // ---------------------------------------------------------------------
  // The matcher against the pattern

  /** Every character of an all-white-space slice is white space. */
  lemma SpaceAt(line: string, e: nat, s: nat)
    requires e <= s <= |line| && AllSpace(line[e..s])
    ensures forall k :: e <= k < s ==> IsSpace(line[k])
  {
    forall k | e <= k < s ensures IsSpace(line[k]) {
      assert line[e..s][k - e] == line[k];
    }
  }

  /** Every way the pattern describes a header is the one the matcher finds. */
  lemma HeaderExact(line: string, i: nat, j: nat)
    requires HeaderSplit(line, i, j)
    ensures Header(line) == Some(j + 1)
  {
    assert line[i] == line[i..i + 7][0];
    LeadingSpaceOf(line, i);
    SpaceEndOf(line, i + 7, j);
  }

  /** White space from `from` up to something else ends there. */
  lemma SpaceEndOf(line: string, from: nat, j: nat)
    requires from <= j < |line| && AllSpace(line[from..j]) && !IsSpace(line[j])
    ensures SpaceEnd(line, from) == j
  {
    assert line[from..][j - from] == line[j];
    assert line[from..][..j - from] == line[from..j];
    LeadingSpaceOf(line[from..], j - from);
  }

  /** White space followed by something else is the leading white space. */
  lemma LeadingSpaceOf(s: string, n: nat)
    requires n < |s| && AllSpace(s[..n]) && !IsSpace(s[n])
    ensures LeadingSpace(s) == n
  {
  }

  /**
   * The group the matcher settles on is the first the backtracking engine
   * reaches: no other match of the group starts later, or starts at the
   * same place and ends later.
   */
  lemma {:induction false} GroupFromFirst(line: string, e: nat, s: nat, s': nat, t': nat)
    requires e <= s <= |line| && AllSpace(line[e..s]) && s' <= s && GroupSplit(line, e, s', t')
    ensures GroupFrom(line, e, s).Some?
    ensures var (s0, t0) := GroupFrom(line, e, s).value;
            s' < s0 || (s' == s0 && t' <= t0)
    decreases s
  {
    var q := NewlineFrom(line, s);
    GroupFromStep(line, e, s);
    if s' == s {
      GroupAt(line, e, s, t');
    } else if !(s < q && TrailingSpace(line, s + 1) <= q) {
      AllSpaceShrink(line, e, s);
      GroupFromFirst(line, e, s - 1, s', t');
    }
  }

  /** One step of the engine's search: keep the group from `s`, or give back one more character of white space. */
  lemma GroupFromStep(line: string, e: nat, s: nat)
    requires e <= s <= |line| && AllSpace(line[e..s])
    ensures var q := NewlineFrom(line, s);
            if s < q && TrailingSpace(line, s + 1) <= q then GroupFrom(line, e, s) == Some((s, q))
            else if s == e then GroupFrom(line, e, s).None?
            else AllSpace(line[e..s - 1]) && GroupFrom(line, e, s) == GroupFrom(line, e, s - 1)
  {
    if s > e {
      AllSpaceShrink(line, e, s);
    }
  }

  /** A group from `s` ends at the next `\n` at the latest, and one that ends there exists. */
  lemma GroupAt(line: string, e: nat, s: nat, t: nat)
    requires s <= |line| && GroupSplit(line, e, s, t)
    ensures var q := NewlineFrom(line, s);
            s < q && TrailingSpace(line, s + 1) <= q && t <= q
  {
  }

  /** A group `ParseLine` returns is described by the pattern, in the place `Match` gives. */
  lemma MatchSound(line: string)
    requires Match(line).Some?
    ensures var (s, t) := Match(line).value;
            HeaderSplit(line, LeadingSpace(line), Header(line).value - 1)
            && GroupSplit(line, Header(line).value, s, t)
            && ParseLine(line) == Some(line[s..t])
  {
  }

  /**
   * Every match the pattern describes is found, and of several the one
   * found is the first in the engine's order: the latest start of the
   * group, then the longest group.
   */
  lemma MatchFirst(line: string, i: nat, j: nat, s: nat, t: nat)
    requires HeaderSplit(line, i, j) && GroupSplit(line, j + 1, s, t)
    ensures Match(line).Some?
    ensures var (s0, t0) := Match(line).value;
            s < s0 || (s == s0 && t <= t0)
  {
    HeaderExact(line, i, j);
    var e := j + 1;
    var w := SpaceEnd(line, e);
    MatchIs(line, e);
    SpaceAt(line, e, s);
    GroupFromFirst(line, e, w, s, t);
  }

  lemma MatchIs(line: string, e: nat)
    requires Header(line) == Some(e)
    ensures e <= |line| && Match(line) == GroupFrom(line, e, SpaceEnd(line, e))
  {
  }

  /**
   * Trailing white space stays in the id: `(.+)` is greedy, so the `\s*`
   * after it is left only the newline.
   */
  lemma TrailingSpaceKept(xmltvId: string, pad: string)
    requires ParsesBack(xmltvId) && AllSpace(pad) && NoNewline(pad)
    ensures ParseLine(ConfigLine(xmltvId + pad)) == Some(xmltvId + pad)
  {
    var padded := xmltvId + pad;
    assert padded[0] == xmltvId[0];
    assert forall k :: 0 <= k < |padded| ==> padded[k] == if k < |xmltvId| then xmltvId[k] else pad[k - |xmltvId|];
    ConfigLineParses(padded);
  }

  // ---------------------------------------------------------------------
  // Files

  /**
   * The lines Python's file iterator yields for `text`: each ends with its
   * `\n`, except a last line without one.
   */
  function Lines(text: string): (r: seq<string>)
    decreases |text|
  {
    if text == [] then []
    else
      var q := NewlineFrom(text, 0);
      if q == |text| then [text] else [text[..q + 1]] + Lines(text[q + 1..])
  }

  /** The lines put back together give the text. */
  lemma {:induction false} LinesJoined(text: string)
    ensures Joined(Lines(text)) == text
    decreases |text|
  {
    if text != [] {
      var q := NewlineFrom(text, 0);
      if q < |text| {
        var line, rest := text[..q + 1], text[q + 1..];
        assert line + rest == text;
        LinesJoined(rest);
        assert Lines(text) == [line] + Lines(rest);
      }
    }
  }

  /** A line of a file: non-empty, with a `\n` only as its last character. */
  predicate FileLine(line: string) {
    line != [] && NoNewline(line[..|line| - 1])
  }

  /** A line that ends with its `\n`. */
  predicate Terminated(line: string) {
    line != [] && line[|line| - 1] == '\n'
  }

  /** Every line is a line of a file, and all but the last end with a `\n`. */
  predicate FileLines(r: seq<string>) {
    (forall k :: 0 <= k < |r| ==> FileLine(r[k]))
    && (forall k :: 0 <= k < |r| - 1 ==> Terminated(r[k]))
  }

  /** The text splits into the lines of a file. */
  lemma {:induction false} LinesShape(text: string)
    ensures FileLines(Lines(text))
    decreases |text|
  {
    if text != [] {
      var q := NewlineFrom(text, 0);
      if q == |text| {
        assert text[..|text| - 1] == text[0..q][..|text| - 1];
      } else {
        var line, rest := text[..q + 1], text[q + 1..];
        assert line[..|line| - 1] == text[0..q];
        LinesShape(rest);
        var r, tail := Lines(text), Lines(rest);
        assert r == [line] + tail;
        assert FileLine(line) && Terminated(line);
        forall k | 0 < k < |r| ensures r[k] == tail[k - 1] { }
      }
    }
  }

  /** `''.join(lines)`. */
  function Joined(lines: seq<string>): string {
    if lines == [] then "" else lines[0] + Joined(lines[1..])
  }

  /** A line ending in its only `\n` is split off the front of the text. */
  lemma LinesCons(line: string, rest: string)
    requires line != [] && line[|line| - 1] == '\n' && NoNewline(line[..|line| - 1])
    ensures Lines(line + rest) == [line] + Lines(rest)
  {
    var text := line + rest;
    var q := |line| - 1;
    forall k | 0 <= k < q ensures text[k] != '\n' {
      assert text[k] == line[..q][k];
    }
    NewlineAt(text, 0, q);
    assert text[..q + 1] == line;
    assert text[q + 1..] == rest;
  }

  /** The next `\n` from `from` is at `q` when there is none in between. */
  lemma NewlineAt(line: string, from: nat, q: nat)
    requires from <= q < |line| && line[q] == '\n'
    requires forall k :: from <= k < q ==> line[k] != '\n'
    ensures NewlineFrom(line, from) == q
  {
  }

  /** The values of the `Some`s, in order. */
  function Groups(found: seq<Option<string>>): (r: seq<string>)
    ensures |r| <= |found|
  {
    if found == [] then []
    else
      var last := found[|found| - 1];
      Groups(found[..|found| - 1]) + (if last.Some? then [last.value] else [])
  }

  /** What `re.search` gives on each line. */
  function ParsedLines(lines: seq<string>): (r: seq<Option<string>>)
    ensures |r| == |lines| && forall i :: 0 <= i < |lines| ==> r[i] == ParseLine(lines[i])
  {
    seq(|lines|, i requires 0 <= i < |lines| => ParseLine(lines[i]))
  }

  /** The ids of the matching lines, in order. */
  function ConfigIds(lines: seq<string>): seq<string> {
    Groups(ParsedLines(lines))
  }

  /**
   * `_read_configuration`: the group of every matching line, in file order.
   * Opening and reading the file are left to the caller, which passes its text.
   */
  method ReadConfiguration(text: string) returns (xmltvIds: seq<string>)
    ensures xmltvIds == ConfigIds(Lines(text))
  {
    var lines := Lines(text);
    ghost var found := ParsedLines(lines);
    xmltvIds := [];
    for n := 0 to |lines|
      invariant xmltvIds == Groups(found[..n])
    {
      assert found[..n + 1][..n] == found[..n];
      var parsed := ParseLine(lines[n]);
      if parsed.Some? {
        xmltvIds := xmltvIds + [parsed.value];
      }
    }
    assert found[..|lines|] == found;
  }

  /** `print('channel={}'.format(xmltv_id), file=config)`. */
  function ConfigLine(xmltvId: string): string {
    "channel=" + xmltvId + "\n"
  }

  /** The text of a configuration file listing these ids. */
  function Written(xmltvIds: seq<string>): string {
    if xmltvIds == [] then ""
    else Written(xmltvIds[..|xmltvIds| - 1]) + ConfigLine(xmltvIds[|xmltvIds| - 1])
  }

  /**
   * `_write_configuration`: one `channel=<id>` line per id, in order. The
   * file is returned as its text; creating the directory and writing the
   * file are left out.
   */
  method WriteConfiguration(xmltvIds: seq<string>) returns (text: string)
    ensures text == Written(xmltvIds)
  {
    text := "";
    for n := 0 to |xmltvIds|
      invariant text == Written(xmltvIds[..n])
    {
      assert xmltvIds[..n + 1][..n] == xmltvIds[..n];
      text := text + "channel=" + xmltvIds[n] + "\n";
    }
    assert xmltvIds[..|xmltvIds|] == xmltvIds;
  }

  // ---------------------------------------------------------------------
  // Round trip

  /** An id whose written line reads back as itself: non-empty, not starting with white space, no `\n`. */
  predicate ParsesBack(xmltvId: string) {
    xmltvId != [] && !IsSpace(xmltvId[0]) && NoNewline(xmltvId)
  }

  /**
   * An id that survives a whole file being written and read back: its line
   * reads back as itself, and it holds no `\r`, which a text-mode reader
   * would also take for a line end.
   */
  predicate Writable(xmltvId: string) {
    ParsesBack(xmltvId) && '\r' !in xmltvId
  }

  /** A written line reads back as its id. */
  lemma ConfigLineParses(xmltvId: string)
    requires ParsesBack(xmltvId)
    ensures ParseLine(ConfigLine(xmltvId)) == Some(xmltvId)
  {
    var line := ConfigLine(xmltvId);
    var q := 8 + |xmltvId|;
    assert line[..7] == "channel";
    LeadingSpaceOf(line, 0);
    LeadingSpaceOf(line[7..], 0);
    assert line[8..][0] == xmltvId[0];
    LeadingSpaceOf(line[8..], 0);
    ConfigLineShape(xmltvId);
    NewlineAt(line, 8, q);
    assert line[8..q] == xmltvId;
  }

  /** A written line has its only `\n` at the end. */
  lemma ConfigLineShape(xmltvId: string)
    requires NoNewline(xmltvId)
    ensures var line := ConfigLine(xmltvId);
            line != [] && line[|line| - 1] == '\n' && NoNewline(line[..|line| - 1])
            && forall k :: 8 <= k < |line| - 1 ==> line[k] == xmltvId[k - 8]
  {
    var line := ConfigLine(xmltvId);
    assert line[..|line| - 1] == "channel=" + xmltvId;
  }

  /** Writing `[x] + rest` writes `x` first. */
  lemma {:induction false} WrittenCons(x: string, rest: seq<string>)
    ensures Written([x] + rest) == ConfigLine(x) + Written(rest)
    decreases |rest|
  {
    if rest != [] {
      var init := rest[..|rest| - 1];
      assert ([x] + rest)[..|rest|] == [x] + init;
      WrittenCons(x, init);
    } else {
      assert ([x] + rest)[..0] == [];
    }
  }

  /** A file made of written lines splits back into those lines. */
  lemma {:induction false} LinesOfWritten(xmltvIds: seq<string>)
    requires forall k :: 0 <= k < |xmltvIds| ==> NoNewline(xmltvIds[k])
    ensures |Lines(Written(xmltvIds))| == |xmltvIds|
    ensures forall k :: 0 <= k < |xmltvIds| ==> Lines(Written(xmltvIds))[k] == ConfigLine(xmltvIds[k])
    decreases |xmltvIds|
  {
    if xmltvIds != [] {
      var x := xmltvIds[0];
      var rest := xmltvIds[1..];
      assert xmltvIds == [x] + rest;
      WrittenCons(x, rest);
      ConfigLineShape(x);
      LinesCons(ConfigLine(x), Written(rest));
      LinesOfWritten(rest);
    }
  }

  /** Collecting `Some(x)` for every `x` gives the `x`s back. */
  lemma {:induction false} GroupsOfSomes(found: seq<Option<string>>, xs: seq<string>)
    requires |found| == |xs| && forall k :: 0 <= k < |xs| ==> found[k] == Some(xs[k])
    ensures Groups(found) == xs
  {
    if xs != [] {
      GroupsOfSomes(found[..|found| - 1], xs[..|xs| - 1]);
    }
  }

  /**
   * Writing ids and reading the file back gives the same ids, as long as
   * each is non-empty, does not start with white space and holds neither
   * `\n` nor `\r`.
   */
  lemma RoundTrip(xmltvIds: seq<string>)
    requires forall k :: 0 <= k < |xmltvIds| ==> Writable(xmltvIds[k])
    ensures ConfigIds(Lines(Written(xmltvIds))) == xmltvIds
  {
    var lines := Lines(Written(xmltvIds));
    LinesOfWritten(xmltvIds);
    forall k | 0 <= k < |xmltvIds| ensures ParsedLines(lines)[k] == Some(xmltvIds[k]) {
      ConfigLineParses(xmltvIds[k]);
    }
    GroupsOfSomes(ParsedLines(lines), xmltvIds);
  }
}
