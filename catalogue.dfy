/**
 * The channel catalogue: every channel of the feed that has both an id and a
 * display name, as a Python dictionary from id to display name. A Python
 * dictionary keeps its keys in first-insertion order, and assigning to an
 * existing key replaces its value in place, so the catalogue is modelled as
 * a list of (id, display name) pairs with distinct ids.
 */
module Catalogue {
  import opened Tree

  type Entry = (string, string)

  predicate Qualifies(c: Channel) {
    c.id.Some? && c.displayName.Some?
  }

  /** The (id, display name) of the qualifying channels, in feed order, duplicates included. */
  function Pairs(chans: seq<Channel>): (r: seq<Entry>)
    ensures |r| <= |chans|
  {
    if chans == [] then []
    else
      var last := chans[|chans| - 1];
      Pairs(chans[..|chans| - 1]) + (if Qualifies(last) then [(last.id.value, last.displayName.value)] else [])
  }

  predicate DistinctIds(cat: seq<Entry>) {
    forall i, j :: 0 <= i < j < |cat| ==> cat[i].0 != cat[j].0
  }

  /** Some entry of `cat` has id `x`. */
  predicate HasId(cat: seq<Entry>, x: string) {
    exists i :: 0 <= i < |cat| && cat[i].0 == x
  }

  /** `ps[k]` is the last pair with its id. */
  predicate IsLastWithId(ps: seq<Entry>, k: int)
    requires 0 <= k < |ps|
  {
    forall k' :: k < k' < |ps| ==> ps[k'].0 != ps[k].0
  }

  /** Some pair before position `bound` has id `x`. */
  predicate SeenBefore(ps: seq<Entry>, x: string, bound: int) {
    exists k :: 0 <= k < bound && k < |ps| && ps[k].0 == x
  }

  /** Every id of the pairs is in the catalogue. */
  predicate Covers(cat: seq<Entry>, ps: seq<Entry>) {
    forall k :: 0 <= k < |ps| ==> HasId(cat, ps[k].0)
  }

  /** `e` is the last pair with its id. */
  predicate IsLastPair(ps: seq<Entry>, e: Entry) {
    exists k :: 0 <= k < |ps| && ps[k] == e && IsLastWithId(ps, k)
  }

  /** Every entry of the catalogue is the last pair with its id. */
  predicate LastWins(cat: seq<Entry>, ps: seq<Entry>) {
    forall i :: 0 <= i < |cat| ==> IsLastPair(ps, cat[i])
  }

  /** Wherever the id of a later entry occurs among the pairs, the id of an earlier entry already occurred. */
  predicate FirstOrder(cat: seq<Entry>, ps: seq<Entry>) {
    forall i, j, k' :: 0 <= i < j < |cat| && 0 <= k' < |ps| && ps[k'].0 == cat[j].0 ==> SeenBefore(ps, cat[i].0, k')
  }

  /**
   * `cat` is the dictionary that assigning every pair of `ps` in turn
   * builds: distinct ids, exactly the ids of `ps`, each with the display
   * name of its last pair, in the order the ids first appear.
   */
  predicate IsCatalogueOf(cat: seq<Entry>, ps: seq<Entry>) {
    DistinctIds(cat) && Covers(cat, ps) && LastWins(cat, ps) && FirstOrder(cat, ps)
  }

  /** `d[x] = v` on an insertion-ordered dictionary. */
  function Put(cat: seq<Entry>, x: string, v: string): (r: seq<Entry>)
    requires DistinctIds(cat)
    ensures DistinctIds(r)
    ensures HasId(cat, x) ==> |r| == |cat| && exists t :: 0 <= t < |cat| && cat[t].0 == x && r == cat[t := (x, v)]
    ensures !HasId(cat, x) ==> r == cat + [(x, v)]
  {
    PutFrom(cat, x, v, 0)
  }

  function PutFrom(cat: seq<Entry>, x: string, v: string, t: nat): (r: seq<Entry>)
    requires DistinctIds(cat) && t <= |cat|
    requires forall i :: 0 <= i < t ==> cat[i].0 != x
    ensures DistinctIds(r)
    ensures HasId(cat, x) ==> |r| == |cat| && exists t :: 0 <= t < |cat| && cat[t].0 == x && r == cat[t := (x, v)]
    ensures !HasId(cat, x) ==> r == cat + [(x, v)]
    decreases |cat| - t
  {
    if t == |cat| then cat + [(x, v)]
    else if cat[t].0 == x then cat[t := (x, v)]
    else PutFrom(cat, x, v, t + 1)
  }

  // Replacing the value of an id already present.

  lemma ReplaceCovers(cat: seq<Entry>, ps: seq<Entry>, t: nat, x: string, v: string)
    requires t < |cat| && cat[t].0 == x && Covers(cat, ps)
    ensures Covers(cat[t := (x, v)], ps + [(x, v)])
  {
    var r, qs := cat[t := (x, v)], ps + [(x, v)];
    forall k | 0 <= k < |qs| ensures HasId(r, qs[k].0) {
      if k < |ps| {
        assert qs[k] == ps[k];
        var i :| 0 <= i < |cat| && cat[i].0 == ps[k].0;
        assert r[i].0 == cat[i].0;
      } else {
        assert r[t].0 == x;
      }
    }
  }

  lemma ReplaceLastWins(cat: seq<Entry>, ps: seq<Entry>, t: nat, x: string, v: string)
    requires t < |cat| && cat[t].0 == x && DistinctIds(cat) && LastWins(cat, ps)
    ensures LastWins(cat[t := (x, v)], ps + [(x, v)])
  {
    var r, qs := cat[t := (x, v)], ps + [(x, v)];
    forall i | 0 <= i < |r| ensures IsLastPair(qs, r[i]) {
      if i == t {
        assert qs[|ps|] == r[i] && IsLastWithId(qs, |ps|);
      } else {
        var k :| 0 <= k < |ps| && ps[k] == cat[i] && IsLastWithId(ps, k);
        assert qs[k] == r[i] && IsLastWithId(qs, k);
      }
    }
  }

  lemma ReplaceFirstOrder(cat: seq<Entry>, ps: seq<Entry>, t: nat, x: string, v: string)
    requires t < |cat| && cat[t].0 == x && DistinctIds(cat) && LastWins(cat, ps) && FirstOrder(cat, ps)
    ensures FirstOrder(cat[t := (x, v)], ps + [(x, v)])
  {
    var r, qs := cat[t := (x, v)], ps + [(x, v)];
    forall i, j, k' | 0 <= i < j < |r| && 0 <= k' < |qs| && qs[k'].0 == r[j].0
      ensures SeenBefore(qs, r[i].0, k')
    {
      if k' < |ps| {
        assert qs[k'] == ps[k'];
        assert r[i].0 == cat[i].0 && r[j].0 == cat[j].0;
        assert SeenBefore(ps, cat[i].0, k');
        var k :| 0 <= k < k' && k < |ps| && ps[k].0 == cat[i].0;
        assert qs[k] == ps[k];
      } else {
        var k0 :| 0 <= k0 < |ps| && ps[k0] == cat[j] && IsLastWithId(ps, k0);
        var k :| 0 <= k < k0 && k < |ps| && ps[k].0 == cat[i].0;
        assert qs[k] == ps[k];
      }
    }
  }

  // Adding an id not present yet.

  lemma AppendCovers(cat: seq<Entry>, ps: seq<Entry>, x: string, v: string)
    requires Covers(cat, ps)
    ensures Covers(cat + [(x, v)], ps + [(x, v)])
  {
    var r, qs := cat + [(x, v)], ps + [(x, v)];
    forall k | 0 <= k < |qs| ensures HasId(r, qs[k].0) {
      if k < |ps| {
        assert qs[k] == ps[k];
        var i :| 0 <= i < |cat| && cat[i].0 == ps[k].0;
        assert r[i] == cat[i];
      } else {
        assert r[|cat|].0 == x;
      }
    }
  }

  lemma AppendLastWins(cat: seq<Entry>, ps: seq<Entry>, x: string, v: string)
    requires !HasId(cat, x) && LastWins(cat, ps)
    ensures LastWins(cat + [(x, v)], ps + [(x, v)])
  {
    var r, qs := cat + [(x, v)], ps + [(x, v)];
    forall i | 0 <= i < |r| ensures IsLastPair(qs, r[i]) {
      if i == |cat| {
        assert qs[|ps|] == r[i] && IsLastWithId(qs, |ps|);
      } else {
        var k :| 0 <= k < |ps| && ps[k] == cat[i] && IsLastWithId(ps, k);
        assert qs[k] == r[i];
        assert cat[i].0 != x;
        assert IsLastWithId(qs, k);
      }
    }
  }

  lemma AppendFirstOrderAt(cat: seq<Entry>, ps: seq<Entry>, x: string, v: string, i: nat, j: nat, k': nat)
    requires !HasId(cat, x) && Covers(cat, ps) && LastWins(cat, ps) && FirstOrder(cat, ps)
    requires i < j < |cat| + 1 && k' < |ps| + 1
    requires (ps + [(x, v)])[k'].0 == (cat + [(x, v)])[j].0
    ensures SeenBefore(ps + [(x, v)], cat[i].0, k')
  {
    var r, qs := cat + [(x, v)], ps + [(x, v)];
    if k' < |ps| {
      assert qs[k'] == ps[k'];
      assert j < |cat| by {
        var i0 :| 0 <= i0 < |cat| && cat[i0].0 == ps[k'].0;
        assert r[|cat|].0 == x;
      }
      assert r[j] == cat[j];
      var k :| 0 <= k < k' && k < |ps| && ps[k].0 == cat[i].0;
      assert qs[k] == ps[k];
    } else {
      var k0 :| 0 <= k0 < |ps| && ps[k0] == cat[i] && IsLastWithId(ps, k0);
      assert qs[k0] == ps[k0];
    }
  }

  lemma AppendFirstOrder(cat: seq<Entry>, ps: seq<Entry>, x: string, v: string)
    requires !HasId(cat, x) && Covers(cat, ps) && LastWins(cat, ps) && FirstOrder(cat, ps)
    ensures FirstOrder(cat + [(x, v)], ps + [(x, v)])
  {
    var r, qs := cat + [(x, v)], ps + [(x, v)];
    forall i, j, k' | 0 <= i < j < |r| && 0 <= k' < |qs| && qs[k'].0 == r[j].0
      ensures SeenBefore(qs, r[i].0, k')
    {
      assert r[i] == cat[i];
      AppendFirstOrderAt(cat, ps, x, v, i, j, k');
    }
  }

  /** Assigning one more pair keeps the catalogue in step with the pairs. */
  lemma PutStep(cat: seq<Entry>, ps: seq<Entry>, x: string, v: string)
    requires IsCatalogueOf(cat, ps)
    ensures IsCatalogueOf(Put(cat, x, v), ps + [(x, v)])
  {
    if HasId(cat, x) {
      var t :| 0 <= t < |cat| && cat[t].0 == x && Put(cat, x, v) == cat[t := (x, v)];
      ReplaceCovers(cat, ps, t, x, v);
      ReplaceLastWins(cat, ps, t, x, v);
      ReplaceFirstOrder(cat, ps, t, x, v);
    } else {
      AppendCovers(cat, ps, x, v);
      AppendLastWins(cat, ps, x, v);
      AppendFirstOrder(cat, ps, x, v);
    }
  }

  /**
   * `_retrieve_available_channels`: walks the channels in feed order and
   * records `channels[id] = display name` for each one that has both.
   */
  method RetrieveAvailableChannels(chans: seq<Channel>) returns (channels: seq<Entry>)
    ensures IsCatalogueOf(channels, Pairs(chans))
  {
    channels := [];
    for n := 0 to |chans|
      invariant IsCatalogueOf(channels, Pairs(chans[..n]))
    {
      var channel := chans[n];
      assert chans[..n + 1][..n] == chans[..n];
      assert Pairs(chans[..n + 1]) == Pairs(chans[..n]) + (if Qualifies(channel) then [(channel.id.value, channel.displayName.value)] else []);
      if channel.id.Some? && channel.displayName.Some? {
        PutStep(channels, Pairs(chans[..n]), channel.id.value, channel.displayName.value);
        channels := Put(channels, channel.id.value, channel.displayName.value);
      } else {
        assert Pairs(chans[..n + 1]) == Pairs(chans[..n]);
      }
    }
    assert chans[..|chans|] == chans;
  }

  /** A pair belongs to `Pairs(chans)` exactly when some qualifying channel gives it. */
  lemma {:induction false} PairsOf(chans: seq<Channel>, e: Entry)
    ensures e in Pairs(chans) <==> exists k :: 0 <= k < |chans| && Qualifies(chans[k]) && e == (chans[k].id.value, chans[k].displayName.value)
  {
    if chans != [] {
      var init := chans[..|chans| - 1];
      PairsOf(init, e);
      assert forall k :: 0 <= k < |init| ==> init[k] == chans[k];
    }
  }

  /** The catalogue holds exactly the ids of the channels that have both an id and a display name. */
  lemma {:induction false} CatalogueIds(cat: seq<Entry>, chans: seq<Channel>, x: string)
    requires IsCatalogueOf(cat, Pairs(chans))
    ensures HasId(cat, x) <==> exists k :: 0 <= k < |chans| && Qualifies(chans[k]) && chans[k].id.value == x
  {
    var ps := Pairs(chans);
    if HasId(cat, x) {
      var i :| 0 <= i < |cat| && cat[i].0 == x;
      var k :| 0 <= k < |ps| && ps[k] == cat[i] && IsLastWithId(ps, k);
      PairsOf(chans, ps[k]);
    } else {
      forall k | 0 <= k < |chans| && Qualifies(chans[k]) ensures chans[k].id.value != x {
        var e := (chans[k].id.value, chans[k].displayName.value);
        PairsOf(chans, e);
        var m :| 0 <= m < |ps| && ps[m] == e;
        assert HasId(cat, ps[m].0);
      }
    }
  }
}
