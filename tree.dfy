/**
 * The parts of the parsed XMLTV tree the grabber touches: channel elements,
 * programme elements and a programme's child elements.
 */
module Tree {
  import opened Wrappers

  /**
   * A child element of a programme (`title`, `sub-title`, `desc`,
   * `category`, ...): its tag, its text (`None` for an element without
   * text), its attributes and its own children, which the grabber carries
   * along untouched.
   */
  datatype Element = Element(tag: string, text: Option<string>, attrs: map<string, string>, children: seq<Element>)

  /**
   * A `channel` element as the grabber sees it: its `id` attribute and
   * `findtext('display-name')`, each `None` when absent. The element itself
   * is copied to the output as it is.
   */
  datatype Channel = Channel(id: Option<string>, displayName: Option<string>)

  /** The value of a programme element at one moment. */
  datatype Programme = Programme(attrs: map<string, string>, children: seq<Element>)

  /** A `programme` element of the parsed tree; the grabber edits its children in place. */
  class ProgrammeNode {
    var attrs: map<string, string>
    var children: seq<Element>

    constructor (attrs: map<string, string>, children: seq<Element>)
      ensures this.attrs == attrs && this.children == children
    {
      this.attrs := attrs;
      this.children := children;
    }

    function Value(): Programme
      reads this
    {
      Programme(attrs, children)
    }
  }

  /** The values of a list of programme nodes, in order. */
  ghost function Values(ps: seq<ProgrammeNode>): (r: seq<Programme>)
    reads set p | p in ps
    ensures |r| == |ps|
    ensures forall i :: 0 <= i < |ps| ==> r[i] == ps[i].Value()
  {
    if ps == [] then [] else Values(ps[..|ps| - 1]) + [ps[|ps| - 1].Value()]
  }

  /** `element.get(name, default)`. */
  function Attr(attrs: map<string, string>, name: string, default: string): string {
    if name in attrs then attrs[name] else default
  }

  /**
   * `program_xml.find(tag)`: the index of the first child with this tag, or
   * `None` when there is none.
   */
  function Find(cs: seq<Element>, tag: string): (r: Option<nat>)
    ensures r.Some? ==> r.value < |cs| && cs[r.value].tag == tag
                        && forall k :: 0 <= k < r.value ==> cs[k].tag != tag
    ensures r.None? ==> forall k :: 0 <= k < |cs| ==> cs[k].tag != tag
  {
    FindFrom(cs, tag, 0)
  }

  function FindFrom(cs: seq<Element>, tag: string, from: nat): (r: Option<nat>)
    requires from <= |cs|
    requires forall k :: 0 <= k < from ==> cs[k].tag != tag
    ensures r.Some? ==> from <= r.value < |cs| && cs[r.value].tag == tag
                        && forall k :: 0 <= k < r.value ==> cs[k].tag != tag
    ensures r.None? ==> forall k :: 0 <= k < |cs| ==> cs[k].tag != tag
    decreases |cs| - from
  {
    if from == |cs| then None
    else if cs[from].tag == tag then Some(from)
    else FindFrom(cs, tag, from + 1)
  }

  /** Two child lists with the same tag at every index have their first `tag` at the same place. */
  lemma FindSameTags(cs: seq<Element>, ds: seq<Element>, tag: string)
    requires |cs| == |ds|
    requires forall i :: 0 <= i < |cs| ==> cs[i].tag == ds[i].tag
    ensures Find(cs, tag) == Find(ds, tag)
  {
  }

  /** The first child with a tag is the one with that tag and none before it. */
  lemma FindIs(cs: seq<Element>, tag: string, k: nat)
    requires k < |cs| && cs[k].tag == tag
    requires forall m :: 0 <= m < k ==> cs[m].tag != tag
    ensures Find(cs, tag) == Some(k)
  {
  }

  /** `program_xml.findtext(tag, '')`: the first such child's text, `''` when it has none or there is no such child. */
  function FindText(cs: seq<Element>, tag: string): (r: string)
    ensures Find(cs, tag).None? ==> r == ""
    ensures Find(cs, tag).Some? ==> r == cs[Find(cs, tag).value].text.GetOr("")
    ensures (forall k :: 0 <= k < |cs| ==> cs[k].tag != tag) ==> r == ""
    ensures forall i :: 0 <= i < |cs| && cs[i].tag == tag && (forall m :: 0 <= m < i ==> cs[m].tag != tag) ==>
              r == cs[i].text.GetOr("")
  {
    match Find(cs, tag)
    case Some(i) => cs[i].text.GetOr("")
    case None => ""
  }
}
