/**
 * `GroupBy(channel => channel.Layer)` over a geometry's channel list: the
 * distinct layers in order of first appearance, the channels of each layer
 * in list order, and the fact that the groups partition the list.
 */
module LayerGroups {
  import opened Values
  import opened Channels
  import opened Seqs

  /** The layers the channel list mentions. */
  function LayerSet(cs: seq<Channel>): set<Int32> {
    set c | c in cs :: c.layer
  }

  /** The group keys: each layer once, in order of its first channel. */
  function Layers(cs: seq<Channel>): (r: seq<Int32>)
    ensures Distinct(r)
    ensures forall i :: 0 <= i < |r| ==> r[i] in LayerSet(cs)
    ensures |r| <= |cs|
  {
    if |cs| == 0 then []
    else
      var init, last := cs[..|cs| - 1], cs[|cs| - 1];
      var keys := Layers(init);
      assert forall i :: 0 <= i < |init| ==> init[i] == cs[i];
      assert LayerSet(init) <= LayerSet(cs) by {
        forall l | l in LayerSet(init) ensures l in LayerSet(cs) {
          var c :| c in init && c.layer == l;
          assert c in cs;
        }
      }
      if last.layer in keys then keys else keys + [last.layer]
  }

  /** Every channel's layer is a group key. */
  lemma {:induction false} LayersCover(cs: seq<Channel>)
    ensures forall i :: 0 <= i < |cs| ==> cs[i].layer in Layers(cs)
  {
    if |cs| > 0 {
      var init := cs[..|cs| - 1];
      LayersCover(init);
      assert forall i :: 0 <= i < |init| ==> init[i] == cs[i];
    }
  }

  /** The channels of layer `l`, in list order. */
  function InLayer(cs: seq<Channel>, l: Int32): (r: seq<Channel>)
    ensures forall i :: 0 <= i < |r| ==> r[i].layer == l
    ensures multiset(r) <= multiset(cs)
  {
    if |cs| == 0 then []
    else
      var init, last := cs[..|cs| - 1], cs[|cs| - 1];
      assert cs == init + [last];
      InLayer(init, l) + (if last.layer == l then [last] else [])
  }

  /** The groups for keys `ls`, one after the other: the order channels are rendered in. */
  function Blocks(cs: seq<Channel>, ls: seq<Int32>): seq<Channel> {
    if |ls| == 0 then [] else InLayer(cs, ls[0]) + Blocks(cs, ls[1..])
  }

  lemma {:induction false} BlocksOfNothing(ls: seq<Int32>)
    ensures Blocks([], ls) == []
  {
    if |ls| > 0 {
      BlocksOfNothing(ls[1..]);
    }
  }

  /** One channel more at the end lands in the block of its own layer, if that is a key. */
  lemma {:induction false} BlocksSnoc(cs: seq<Channel>, x: Channel, ls: seq<Int32>)
    requires Distinct(ls)
    ensures multiset(Blocks(cs + [x], ls))
            == multiset(Blocks(cs, ls)) + (if x.layer in ls then multiset{x} else multiset{})
  {
    if |ls| > 0 {
      var tail := ls[1..];
      DistinctTail(ls);
      BlocksSnoc(cs, x, tail);
      InLayerSnoc(cs, x, ls[0]);
      assert x.layer in ls <==> x.layer == ls[0] || x.layer in tail;
      assert x.layer == ls[0] ==> x.layer !in tail;
    }
  }

  lemma InLayerSnoc(cs: seq<Channel>, x: Channel, l: Int32)
    ensures InLayer(cs + [x], l) == InLayer(cs, l) + (if x.layer == l then [x] else [])
  {
    assert (cs + [x])[..|cs|] == cs;
  }

  /**
   * With distinct keys that cover every channel's layer, the blocks are a
   * permutation of the channel list: every channel is rendered exactly once.
   */
  lemma {:induction false} BlocksPermutation(cs: seq<Channel>, ls: seq<Int32>)
    requires Distinct(ls)
    requires forall i :: 0 <= i < |cs| ==> cs[i].layer in ls
    ensures multiset(Blocks(cs, ls)) == multiset(cs)
  {
    if |cs| == 0 {
      BlocksOfNothing(ls);
    } else {
      var init, last := cs[..|cs| - 1], cs[|cs| - 1];
      assert cs == init + [last];
      assert forall i :: 0 <= i < |init| ==> init[i] == cs[i];
      BlocksPermutation(init, ls);
      BlocksSnoc(init, last, ls);
    }
  }

  /** The grouping used when writing: every channel sits in exactly one rendered slot. */
  lemma GroupedChannels(cs: seq<Channel>)
    ensures multiset(Blocks(cs, Layers(cs))) == multiset(cs)
    ensures |Blocks(cs, Layers(cs))| == |cs|
  {
    LayersCover(cs);
    BlocksPermutation(cs, Layers(cs));
    assert |multiset(Blocks(cs, Layers(cs)))| == |multiset(cs)|;
  }
}
