/** The key under which the grabber recognises a programme it has already emitted. */
module ProgrammeKey {
  import opened Dates
  import opened Tree

  /**
   * `channel|start|stop|title`: the programme's `channel`, `start` and `stop`
   * attributes and the text of its first `title`, each `''` when missing.
   */
  function Key(p: Programme): (r: string)
    ensures var channel, start, stop, title :=
              Attr(p.attrs, "channel", ""), Attr(p.attrs, "start", ""), Attr(p.attrs, "stop", ""), FindText(p.children, "title");
            |r| == |channel| + |start| + |stop| + |title| + 3
            && r[..|channel|] == channel && r[|channel|] == '|'
            && r[|r| - |title|..] == title && r[|r| - |title| - 1] == '|'
  {
    Attr(p.attrs, "channel", "") + "|" + Attr(p.attrs, "start", "") + "|"
    + Attr(p.attrs, "stop", "") + "|" + FindText(p.children, "title")
  }

  predicate NoBar(s: string) {
    forall i :: 0 <= i < |s| ==> s[i] != '|'
  }

  /** Both stamps of the programme have the form the feed uses. */
  predicate StampsOk(p: Programme) {
    StampOk(Attr(p.attrs, "start", "")) && StampOk(Attr(p.attrs, "stop", ""))
  }

  /** A well-formed stamp has 20 characters and no `|`. */
  lemma StampShape(s: string)
    requires StampOk(s)
    ensures |s| == 20 && NoBar(s)
  {
  }

  /** In `a|b` with `a` free of `|`, the first `|` is the one after `a`. */
  lemma FirstBar(a: string, b: string)
    requires NoBar(a)
    ensures (a + "|" + b)[|a|] == '|'
    ensures forall k :: 0 <= k < |a| ==> (a + "|" + b)[k] != '|'
  {
  }

  /** `a|b` determines `a` and `b` when `a` holds no `|`. */
  lemma SplitAtBar(a: string, b: string, c: string, d: string)
    requires NoBar(a) && NoBar(c)
    requires a + "|" + b == c + "|" + d
    ensures a == c && b == d
  {
    var s := a + "|" + b;
    FirstBar(a, b);
    FirstBar(c, d);
    assert |a| == |c|;
    assert a == s[..|a|] == c;
    assert b == s[|a| + 1..] == d;
  }

  /** The key, bracketed from the right. */
  lemma KeyNested(p: Programme)
    ensures Key(p) == Attr(p.attrs, "channel", "") + "|" + (Attr(p.attrs, "start", "") + "|"
                      + (Attr(p.attrs, "stop", "") + "|" + FindText(p.children, "title")))
  {
  }

  /** Two fields of fixed length 20 and free of `|`, each followed by `|`, split off like the channel does. */
  lemma SplitFields(c1: string, s1: string, e1: string, t1: string, c2: string, s2: string, e2: string, t2: string)
    requires NoBar(c1) && NoBar(c2) && NoBar(s1) && NoBar(s2) && NoBar(e1) && NoBar(e2)
    requires c1 + "|" + (s1 + "|" + (e1 + "|" + t1)) == c2 + "|" + (s2 + "|" + (e2 + "|" + t2))
    ensures c1 == c2 && s1 == s2 && e1 == e2 && t1 == t2
  {
    SplitAtBar(c1, s1 + "|" + (e1 + "|" + t1), c2, s2 + "|" + (e2 + "|" + t2));
    SplitAtBar(s1, e1 + "|" + t1, s2, e2 + "|" + t2);
    SplitAtBar(e1, t1, e2, t2);
  }

  /**
   * With well-formed stamps and channel ids free of `|`, equal keys mean
   * equal channel, start, stop and title text: the key then tells
   * programmes apart exactly by these four fields.
   */
  lemma KeyInjective(p: Programme, q: Programme)
    requires StampsOk(p) && StampsOk(q)
    requires NoBar(Attr(p.attrs, "channel", "")) && NoBar(Attr(q.attrs, "channel", ""))
    requires Key(p) == Key(q)
    ensures Attr(p.attrs, "channel", "") == Attr(q.attrs, "channel", "")
    ensures Attr(p.attrs, "start", "") == Attr(q.attrs, "start", "")
    ensures Attr(p.attrs, "stop", "") == Attr(q.attrs, "stop", "")
    ensures FindText(p.children, "title") == FindText(q.children, "title")
  {
    StampShape(Attr(p.attrs, "start", ""));
    StampShape(Attr(q.attrs, "start", ""));
    StampShape(Attr(p.attrs, "stop", ""));
    StampShape(Attr(q.attrs, "stop", ""));
    KeyNested(p);
    KeyNested(q);
    SplitFields(Attr(p.attrs, "channel", ""), Attr(p.attrs, "start", ""), Attr(p.attrs, "stop", ""), FindText(p.children, "title"),
                Attr(q.attrs, "channel", ""), Attr(q.attrs, "start", ""), Attr(q.attrs, "stop", ""), FindText(q.children, "title"));
  }
}
