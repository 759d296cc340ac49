/**
 * The clean-up applied to each programme kept in the listing: repaired and
 * stripped texts, a `lang="fr"` marker on the French texts, and an ETSI genre
 * inserted just before the feed's own category.
 */
module FixUp {
  import opened Wrappers
  import opened Text
  import opened Cp1252
  import opened Categories
  import opened Tree

  /** The text children that are repaired, in the order the grabber visits them. */
  const TextTags: seq<string> := ["title", "sub-title", "desc"]

  /** The first child with this tag, if there is one, has a text. */
  predicate HasText(cs: seq<Element>, tag: string) {
    Find(cs, tag).Some? ==> cs[Find(cs, tag).value].text.Some?
  }

  /**
   * The texts the clean-up reads must exist: a `title`, `sub-title` or
   * `desc` without text makes the repair iterate over `None` and raise
   * `TypeError`; a `category` without text raises `AttributeError` at
   * `None.strip()`.
   */
  predicate TextsPresent(cs: seq<Element>) {
    HasText(cs, "title") && HasText(cs, "sub-title") && HasText(cs, "desc") && HasText(cs, "category")
  }

  /** True when child `i` is the first child with one of the text tags. */
  predicate IsFirstTextChild(cs: seq<Element>, i: nat)
    requires i < |cs|
  {
    cs[i].tag in TextTags && Find(cs, cs[i].tag) == Some(i)
  }

  /** The text repaired and stripped. */
  function Cleanup(t: string): string {
    Strip(Repair(t))
  }

  function WithLang(e: Element): Element {
    e.(attrs := e.attrs["lang" := "fr"])
  }

  function CleanedText(e: Element): Element
    requires e.text.Some?
  {
    e.(text := Some(Cleanup(e.text.value)))
  }

  /**
   * The reference for the text part of the clean-up: the first `title`,
   * `sub-title` and `desc` get their text repaired and stripped, the last two
   * also `lang="fr"`; every other child stays as it is.
   */
  function Cleaned(cs: seq<Element>): (r: seq<Element>)
    requires TextsPresent(cs)
    ensures |r| == |cs|
  {
    seq(|cs|, i requires 0 <= i < |cs| && TextsPresent(cs) => CleanChild(cs, i))
  }

  function CleanChild(cs: seq<Element>, i: nat): Element
    requires TextsPresent(cs) && i < |cs|
  {
    if IsFirstTextChild(cs, i) then
      (if cs[i].tag == "title" then CleanedText(cs[i]) else WithLang(CleanedText(cs[i])))
    else cs[i]
  }

  /** The stripped text of the first `category`, the label looked up in the table. */
  function CategoryLabel(cs: seq<Element>): Option<(nat, string)>
    requires HasText(cs, "category")
  {
    match Find(cs, "category")
    case Some(k) => Some((k, Strip(cs[k].text.value)))
    case None => None
  }

  /**
   * Where a genre is inserted and which: at the index of the first
   * `category`, when its stripped text is a non-empty label with a
   * non-empty ETSI genre.
   */
  function CategoryGenre(cs: seq<Element>): (r: Option<(nat, string)>)
    requires HasText(cs, "category")
    ensures r.Some? ==> r.value.0 < |cs| && cs[r.value.0].tag == "category" && r.value.1 != ""
  {
    match CategoryLabel(cs)
    case Some((k, l)) =>
      if l != "" && EtsiCategory(l).Some? && EtsiCategory(l).value != "" then Some((k, EtsiCategory(l).value))
      else None
    case None => None
  }

  /** The label the grabber warns about: a non-empty label outside the table. */
  function CategoryWarning(cs: seq<Element>): (r: Option<string>)
    requires HasText(cs, "category")
  {
    match CategoryLabel(cs)
    case Some((_, l)) => if l != "" && EtsiCategory(l).None? then Some(l) else None
    case None => None
  }

  /** The `category` element holding an ETSI genre. */
  function GenreElement(genre: string): Element {
    Element("category", Some(genre), map[], [])
  }

  /** The children of a programme after the clean-up. */
  function Fixed(cs: seq<Element>): (r: seq<Element>)
    requires TextsPresent(cs)
  {
    match CategoryGenre(cs)
    case Some((k, g)) => Cleaned(cs)[..k] + [GenreElement(g)] + Cleaned(cs)[k..]
    case None => Cleaned(cs)
  }

  // ---------------------------------------------------------------------
  // Properties of the clean-up

  /** A cleaned text holds no Windows-1252 key and no surrounding white space, and cleaning it again changes nothing. */
  lemma CleanupIdempotent(t: string)
    ensures KeyFree(Cleanup(t))
    ensures Cleanup(Cleanup(t)) == Cleanup(t)
  {
    var u := Cleanup(t);
    StripChars(Repair(t));
    assert KeyFree(u);
    RepairKeyFree(u);
    StripIdempotent(Repair(t));
  }

  /** A title with trailing white space cleans up to the same text as the title without it. */
  lemma PaddedTitleCleansUp()
    ensures Cleanup("A") == "A" && Cleanup("A ") == "A"
  {
    assert !IsSpace('A') && IsSpace(' ');
    assert Cleanup("A") == "A" by {
      RepairKeyFree("A");
    }
    assert Cleanup("A ") == "A" by {
      RepairKeyFree("A ");
      assert "A "[..1] == "A";
    }
  }

  /** A programme whose only child is its title keeps that one child, its text cleaned up. */
  lemma OnlyTitleFixed(title: string)
    ensures var cs := [Element("title", Some(title), map[], [])];
            TextsPresent(cs) && Fixed(cs) == [Element("title", Some(Cleanup(title)), map[], [])]
  {
    var cs := [Element("title", Some(title), map[], [])];
    assert Find(cs, "title") == Some(0);
    assert Find(cs, "category").None? && Find(cs, "sub-title").None? && Find(cs, "desc").None?;
    assert CategoryGenre(cs).None?;
    assert IsFirstTextChild(cs, 0);
    assert Cleaned(cs)[0] == CleanedText(cs[0]);
  }

  /** The text clean-up keeps every tag where it was. */
  lemma CleanedKeepsTags(cs: seq<Element>)
    requires TextsPresent(cs)
    ensures forall i :: 0 <= i < |cs| ==> Cleaned(cs)[i].tag == cs[i].tag
    ensures forall tag :: Find(Cleaned(cs), tag) == Find(cs, tag)
  {
    forall tag ensures Find(Cleaned(cs), tag) == Find(cs, tag) {
      FindSameTags(Cleaned(cs), cs, tag);
    }
  }

  /** Inserting `x` before position `k` keeps the children before it in place and moves the others one place on. */
  lemma InsertedAt(c: seq<Element>, k: nat, x: Element, i: nat)
    requires k <= |c| && i < |c|
    ensures var r := c[..k] + [x] + c[k..];
            |r| == |c| + 1 && r[k] == x && r[if i < k then i else i + 1] == c[i]
  {
    var r := c[..k] + [x] + c[k..];
    if i < k {
      assert r[i] == c[..k][i];
    } else {
      assert r[i + 1] == c[k..][i - k];
    }
  }

  /** Inserting an element with another tag moves the first `tag` one place on when it was at or after the insertion point. */
  lemma FindAfterInsert(c: seq<Element>, k: nat, x: Element, tag: string)
    requires k <= |c| && x.tag != tag
    ensures Find(c[..k] + [x] + c[k..], tag) ==
              match Find(c, tag)
              case Some(i) => Some(if i < k then i else i + 1)
              case None => None
  {
    var r := c[..k] + [x] + c[k..];
    assert forall m :: 0 <= m < k ==> r[m] == c[m];
    assert forall m :: k < m < |r| ==> r[m] == c[m - 1];
    match Find(c, tag)
    case Some(i) =>
      var j := if i < k then i else i + 1;
      assert r[j] == c[i];
      forall m | 0 <= m < j ensures r[m].tag != tag {
        if m < k { assert r[m] == c[m]; }
        else if m > k { assert r[m] == c[m - 1]; }
      }
    case None =>
      forall m | 0 <= m < |r| ensures r[m].tag != tag {
        if m < k { assert r[m] == c[m]; }
        else if m > k { assert r[m] == c[m - 1]; }
      }
  }

  /** The value of a first text child after the text clean-up. */
  lemma CleanedAt(cs: seq<Element>, i: nat)
    requires TextsPresent(cs) && i < |cs|
    ensures IsFirstTextChild(cs, i) ==>
              cs[i].text.Some?
              && Cleaned(cs)[i] == (if cs[i].tag == "title" then CleanedText(cs[i]) else WithLang(CleanedText(cs[i])))
    ensures !IsFirstTextChild(cs, i) ==> Cleaned(cs)[i] == cs[i]
  {
  }

  /**
   * After the clean-up each present `title`, `sub-title` and `desc` is
   * still found first, its text is the repaired and stripped original, and
   * only `sub-title` and `desc` gain `lang="fr"`.
   */
  lemma FixedTextChild(cs: seq<Element>, tag: string)
    requires TextsPresent(cs)
    requires tag in TextTags && Find(cs, tag).Some?
    ensures Find(Fixed(cs), tag).Some?
    ensures var e := cs[Find(cs, tag).value];
            var f := Fixed(cs)[Find(Fixed(cs), tag).value];
            e.text.Some? && f.text == Some(Cleanup(e.text.value))
            && f.attrs == (if tag == "title" then e.attrs else e.attrs["lang" := "fr"])
            && f.tag == e.tag && f.children == e.children
  {
    var i := Find(cs, tag).value;
    var c := Cleaned(cs);
    CleanedKeepsTags(cs);
    CleanedAt(cs, i);
    var e := cs[i];
    var x := if tag == "title" then CleanedText(e) else WithLang(CleanedText(e));
    assert c[i] == x;
    var j := FixedIndex(cs, i, tag);
    assert Fixed(cs)[j] == x;
  }

  /** Where the child at `i`, first with its tag, sits after the clean-up. */
  lemma FixedIndex(cs: seq<Element>, i: nat, tag: string) returns (j: nat)
    requires TextsPresent(cs) && tag != "category"
    requires Find(cs, tag) == Some(i)
    ensures Find(Fixed(cs), tag) == Some(j) && j < |Fixed(cs)| && Fixed(cs)[j] == Cleaned(cs)[i]
  {
    var c := Cleaned(cs);
    assert Find(c, tag) == Some(i) by {
      CleanedKeepsTags(cs);
    }
    if CategoryGenre(cs).Some? {
      var k, g := CategoryGenre(cs).value.0, CategoryGenre(cs).value.1;
      FixedWithGenre(cs, k, g);
      j := FindInserted(c, k, GenreElement(g), tag, i);
    } else {
      j := i;
    }
  }

  lemma FixedWithGenre(cs: seq<Element>, k: nat, g: string)
    requires TextsPresent(cs) && CategoryGenre(cs) == Some((k, g))
    ensures k <= |Cleaned(cs)| && Fixed(cs) == Cleaned(cs)[..k] + [GenreElement(g)] + Cleaned(cs)[k..]
  {
  }

  /** The first `tag` at `i` is found at its new place once `x`, of another tag, is inserted before `k`. */
  lemma FindInserted(c: seq<Element>, k: nat, x: Element, tag: string, i: nat) returns (j: nat)
    requires k <= |c| && x.tag != tag && Find(c, tag) == Some(i)
    ensures var r := c[..k] + [x] + c[k..];
            Find(r, tag) == Some(j) && j < |r| && r[j] == c[i]
  {
    FindAfterInsert(c, k, x, tag);
    InsertedAt(c, k, x, i);
    j := if i < k then i else i + 1;
  }

  /** The clean-up adds no `title`, `sub-title` or `desc` that was not there. */
  lemma FixedNoNewTextChild(cs: seq<Element>, tag: string)
    requires TextsPresent(cs)
    requires tag in TextTags && Find(cs, tag).None?
    ensures Find(Fixed(cs), tag).None?
  {
    CleanedKeepsTags(cs);
    match CategoryGenre(cs)
    case Some((k, g)) => FindAfterInsert(Cleaned(cs), k, GenreElement(g), tag);
    case None =>
  }

  /**
   * The genre, when there is one, sits right before the feed's category,
   * which keeps its original text; it becomes the first `category`.
   * Otherwise no child is added.
   */
  lemma FixedCategory(cs: seq<Element>)
    requires TextsPresent(cs)
    ensures CategoryGenre(cs).None? ==> |Fixed(cs)| == |cs|
    ensures CategoryGenre(cs).Some? ==>
              var (k, g) := CategoryGenre(cs).value;
              |Fixed(cs)| == |cs| + 1
              && Fixed(cs)[k] == GenreElement(g)
              && Fixed(cs)[k + 1] == cs[k]
              && Find(Fixed(cs), "category") == Some(k)
  {
    if CategoryGenre(cs).Some? {
      var (k, g) := CategoryGenre(cs).value;
      GenreInserted(cs, k, g);
    }
  }

  /** The genre `g` inserted before child `k` is the first `category`, and the feed's category follows it unchanged. */
  lemma GenreInserted(cs: seq<Element>, k: nat, g: string)
    requires TextsPresent(cs) && CategoryGenre(cs) == Some((k, g))
    ensures |Fixed(cs)| == |cs| + 1
    ensures Fixed(cs)[k] == GenreElement(g) && Fixed(cs)[k + 1] == cs[k]
    ensures Find(Fixed(cs), "category") == Some(k)
  {
    var c := Cleaned(cs);
    CleanedAt(cs, k);
    var r := c[..k] + [GenreElement(g)] + c[k..];
    assert Fixed(cs) == r;
    InsertedAt(c, k, GenreElement(g), k);
    forall m | 0 <= m < k ensures r[m].tag != "category" {
      InsertedAt(c, k, GenreElement(g), m);
      CleanedAt(cs, m);
    }
    FindIs(r, "category", k);
  }

  /** A child other than the first `title`, `sub-title` or `desc` comes out unchanged, one place later if it follows the inserted genre. */
  lemma FixedKeepsOtherChildren(cs: seq<Element>, i: nat)
    requires TextsPresent(cs)
    requires i < |cs| && !IsFirstTextChild(cs, i)
    ensures var j := if CategoryGenre(cs).Some? && CategoryGenre(cs).value.0 <= i then i + 1 else i;
            j < |Fixed(cs)| && Fixed(cs)[j] == cs[i]
  {
    var c := Cleaned(cs);
    assert c[i] == cs[i];
    match CategoryGenre(cs)
    case Some((k, g)) =>
      InsertedAt(c, k, GenreElement(g), i);
    case None =>
  }

  /**
   * An unknown label warns and adds nothing; `Emission` neither warns nor
   * adds anything; a genre and a warning never come together.
   */
  lemma CategoryOutcomes(cs: seq<Element>)
    requires TextsPresent(cs)
    ensures CategoryWarning(cs).Some? ==> CategoryGenre(cs).None? && CategoryWarning(cs).value !in EtsiProgramCategories
    ensures CategoryLabel(cs).Some? && CategoryLabel(cs).value.1 == "Emission" ==>
              CategoryGenre(cs).None? && CategoryWarning(cs).None? && Fixed(cs) == Cleaned(cs)
    ensures CategoryLabel(cs).Some? && CategoryLabel(cs).value.1 == "" ==>
              CategoryGenre(cs).None? && CategoryWarning(cs).None?
  {
    EmptyGenreOnlyForEmission("Emission");
  }

  // ---------------------------------------------------------------------
  // `_update_program_xmltv`, step by step

  /** The children once the first `done` text tags have been visited by the grabber's loop. */
  ghost function LoopStage(cs: seq<Element>, done: seq<string>): (r: seq<Element>)
    requires TextsPresent(cs)
    ensures |r| == |cs|
  {
    seq(|cs|, i requires 0 <= i < |cs| && TextsPresent(cs) => StageChild(cs, done, i))
  }

  ghost function StageChild(cs: seq<Element>, done: seq<string>, i: nat): Element
    requires TextsPresent(cs) && i < |cs|
  {
    if cs[i].tag in done && IsFirstTextChild(cs, i) then
      (if cs[i].tag == "sub-title" then WithLang(CleanedText(cs[i])) else CleanedText(cs[i]))
    else cs[i]
  }

  lemma LoopStageTags(cs: seq<Element>, done: seq<string>)
    requires TextsPresent(cs)
    ensures forall i :: 0 <= i < |cs| ==> LoopStage(cs, done)[i].tag == cs[i].tag
    ensures forall tag :: Find(LoopStage(cs, done), tag) == Find(cs, tag)
  {
    forall tag ensures Find(LoopStage(cs, done), tag) == Find(cs, tag) {
      FindSameTags(LoopStage(cs, done), cs, tag);
    }
  }

  /** One turn of the grabber's loop over the text tags, for a tag that is present. */
  lemma LoopStep(cs: seq<Element>, done: seq<string>, tag: string, i: nat)
    requires TextsPresent(cs)
    requires tag in TextTags && tag !in done && Find(cs, tag) == Some(i)
    ensures LoopStage(cs, done)[i] == cs[i] && cs[i].text.Some?
    ensures var xml := CleanedText(cs[i]);
            LoopStage(cs, done)[i := if tag == "sub-title" then WithLang(xml) else xml] == LoopStage(cs, done + [tag])
  {
    assert IsFirstTextChild(cs, i);
    var xml := CleanedText(cs[i]);
    var stepped := LoopStage(cs, done)[i := if tag == "sub-title" then WithLang(xml) else xml];
    forall j | 0 <= j < |cs| ensures stepped[j] == LoopStage(cs, done + [tag])[j] {
      StageOther(cs, done, tag, i, j);
    }
  }

  /** The turn for `tag` changes no child but the first one with that tag. */
  lemma StageOther(cs: seq<Element>, done: seq<string>, tag: string, i: nat, j: nat)
    requires TextsPresent(cs)
    requires tag !in done && Find(cs, tag) == Some(i) && j < |cs|
    ensures j != i ==> StageChild(cs, done + [tag], j) == StageChild(cs, done, j)
  {
    assert cs[j].tag in done + [tag] <==> cs[j].tag in done || cs[j].tag == tag;
  }

  /** One turn of the grabber's loop over the text tags, for a tag that is absent. */
  lemma LoopStepAbsent(cs: seq<Element>, done: seq<string>, tag: string)
    requires TextsPresent(cs)
    requires Find(cs, tag).None?
    ensures LoopStage(cs, done) == LoopStage(cs, done + [tag])
  {
  }

  /** The second pass over `desc` leaves its text as the loop left it and adds the marker. */
  lemma DescStep(cs: seq<Element>, i: nat)
    requires TextsPresent(cs) && Find(cs, "desc") == Some(i)
    ensures LoopStage(cs, TextTags)[i] == CleanedText(cs[i])
    ensures var d := LoopStage(cs, TextTags)[i];
            LoopStage(cs, TextTags)[i := WithLang(d.(text := Some(Cleanup(d.text.value))))] == Cleaned(cs)
  {
    assert IsFirstTextChild(cs, i);
    CleanupIdempotent(cs[i].text.value);
    CleanedAt(cs, i);
    var r := LoopStage(cs, TextTags)[i := WithLang(CleanedText(cs[i]))];
    forall j | 0 <= j < |cs| && j != i ensures r[j] == Cleaned(cs)[j] {
      OtherThanDesc(cs, i, j);
    }
  }

  /** Every child but the `desc` is left by the loop as the full clean-up leaves it. */
  lemma OtherThanDesc(cs: seq<Element>, i: nat, j: nat)
    requires TextsPresent(cs) && Find(cs, "desc") == Some(i)
    requires j < |cs| && j != i
    ensures LoopStage(cs, TextTags)[j] == Cleaned(cs)[j]
  {
    CleanedAt(cs, j);
    if IsFirstTextChild(cs, j) {
      assert cs[j].tag != "desc";
    }
  }

  /** Without a `desc` the loop has already done all the text clean-up. */
  lemma DescAbsent(cs: seq<Element>)
    requires TextsPresent(cs) && Find(cs, "desc").None?
    ensures LoopStage(cs, TextTags) == Cleaned(cs)
  {
    forall j | 0 <= j < |cs| ensures LoopStage(cs, TextTags)[j] == Cleaned(cs)[j] {
      CleanedAt(cs, j);
    }
  }

  /** The category step applied to the cleaned children gives the fixed children. */
  lemma CategoryStep(cs: seq<Element>)
    requires TextsPresent(cs)
    ensures Find(Cleaned(cs), "category") == Find(cs, "category")
    ensures Find(cs, "category").Some? ==> Cleaned(cs)[Find(cs, "category").value] == cs[Find(cs, "category").value]
  {
    CleanedKeepsTags(cs);
    if Find(cs, "category").Some? {
      CleanedAt(cs, Find(cs, "category").value);
    }
  }

  /** What the category step of the grabber decides, read off the first `category` child. */
  lemma CategoryDecision(cs: seq<Element>, k: nat)
    requires TextsPresent(cs) && Find(cs, "category") == Some(k)
    ensures cs[k].text.Some?
    ensures var l := Strip(cs[k].text.value);
            && CategoryGenre(cs) == (if l != "" && EtsiCategory(l).Some? && EtsiCategory(l).value != "" then Some((k, EtsiCategory(l).value)) else None)
            && CategoryWarning(cs) == (if l != "" && EtsiCategory(l).None? then Some(l) else None)
  {
  }

  /**
   * The first part of `_update_program_xmltv`: the loop over `title`,
   * `sub-title` and `desc` that cleans the text of the first of each and
   * gives the `sub-title` `lang="fr"`.
   */
  method CleanTexts(p: ProgrammeNode)
    requires TextsPresent(p.children)
    modifies p
    ensures p.attrs == old(p.attrs)
    ensures p.children == LoopStage(old(p.children), TextTags)
  {
    ghost var cs := p.children;
    for n := 0 to |TextTags|
      invariant p.attrs == old(p.attrs)
      invariant p.children == LoopStage(cs, TextTags[..n])
    {
      var tag := TextTags[n];
      assert TextTags[..n + 1] == TextTags[..n] + [tag];
      LoopStageTags(cs, TextTags[..n]);
      var found := Find(p.children, tag);
      if found.Some? {
        var i := found.value;
        LoopStep(cs, TextTags[..n], tag, i);
        var xml := p.children[i];
        xml := xml.(text := Some(Cleanup(xml.text.value)));
        if tag == "sub-title" {
          xml := WithLang(xml);
        }
        p.children := p.children[i := xml];
      } else {
        LoopStepAbsent(cs, TextTags[..n], tag);
      }
    }
    assert TextTags[..3] == TextTags;
  }

  /**
   * `_update_program_xmltv`: cleans the texts in a loop over the three tags,
   * cleans `desc` a second time while giving it `lang="fr"`, and inserts
   * the genre before the first `category`. Returns the unknown label the
   * grabber logs a warning about, if any.
   */
  method UpdateProgramme(p: ProgrammeNode) returns (warning: Option<string>)
    requires TextsPresent(p.children)
    modifies p
    ensures p.attrs == old(p.attrs)
    ensures p.children == Fixed(old(p.children))
    ensures warning == CategoryWarning(old(p.children))
  {
    ghost var cs := p.children;
    CleanTexts(p);
    LoopStageTags(cs, TextTags);

    // Description: cleaned again, and marked as French.
    var descFound := Find(p.children, "desc");
    if descFound.Some? {
      var i := descFound.value;
      DescStep(cs, i);
      var desc := Cleanup(p.children[i].text.value);
      p.children := p.children[i := WithLang(p.children[i].(text := Some(desc)))];
    } else {
      DescAbsent(cs);
    }
    CategoryStep(cs);

    // Categories
    warning := None;
    var categoryFound := Find(p.children, "category");
    if categoryFound.Some? {
      var k := categoryFound.value;
      CategoryDecision(cs, k);
      var category := Strip(p.children[k].text.value);
      if category != "" {
        var etsiCategory := EtsiCategory(category);
        if etsiCategory.None? {
          warning := Some(category);
        }
        if etsiCategory.Some? && etsiCategory.value != "" {
          p.children := p.children[..k] + [GenreElement(etsiCategory.value)] + p.children[k..];
        }
      }
    }
  }
}
