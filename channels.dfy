/** `_get_channel_indices`: where each requested channel sits in an acquisition's channel list. */
module Channels {

  /** A list of positions, or the first requested name that is absent. */
  datatype Lookup = Indices(indices: seq<nat>) | Missing(name: string)

  /** `list.index(x)`: the position of the first `x`. */
  function IndexOf(s: seq<string>, x: string): (i: nat)
    requires x in s
    ensures i < |s| && s[i] == x && x !in s[..i]
  {
    if s[0] == x then 0
    else
      var j := IndexOf(s[1..], x);
      assert s[..j + 1] == [s[0]] + s[1..][..j];
      j + 1
  }

  /** The value `_get_channel_indices(acquisition, requested)` returns when the acquisition's
      channels are `channels`. */
  function ChannelIndices(channels: seq<string>, requested: seq<string>): Lookup {
    if requested == [] then Indices([])
    else if requested[0] !in channels then Missing(requested[0])
    else match ChannelIndices(channels, requested[1..])
      case Missing(n) => Missing(n)
      case Indices(ix) => Indices([IndexOf(channels, requested[0])] + ix)
  }

  /** When every requested name is present, the result lists the first position of each. */
  lemma {:induction false} ChannelIndicesAllPresent(channels: seq<string>, requested: seq<string>)
    requires forall k :: 0 <= k < |requested| ==> requested[k] in channels
    ensures ChannelIndices(channels, requested)
         == Indices(seq(|requested|, k requires 0 <= k < |requested| => IndexOf(channels, requested[k])))
  {
    if requested != [] {
      ChannelIndicesAllPresent(channels, requested[1..]);
    }
  }

  /** A name missing after present ones is the one returned. */
  lemma {:induction false} ChannelIndicesFirstMissing(channels: seq<string>, requested: seq<string>, i: nat)
    requires i < |requested| && requested[i] !in channels
    requires forall k :: 0 <= k < i ==> requested[k] in channels
    ensures ChannelIndices(channels, requested) == Missing(requested[i])
  {
    if i > 0 {
      ChannelIndicesFirstMissing(channels, requested[1..], i - 1);
    }
  }

  /** What the lookup result means: positions of the first occurrences exactly when every
      requested name is present, and otherwise the first absent one in request order. */
  lemma ChannelIndicesMeaning(channels: seq<string>, requested: seq<string>)
    ensures ChannelIndices(channels, requested).Indices?
        <==> forall k :: 0 <= k < |requested| ==> requested[k] in channels
    ensures ChannelIndices(channels, requested).Indices? ==>
      var ix := ChannelIndices(channels, requested).indices;
      |ix| == |requested| &&
      forall k :: 0 <= k < |requested| ==>
        ix[k] < |channels| && channels[ix[k]] == requested[k] && requested[k] !in channels[..ix[k]]
    ensures ChannelIndices(channels, requested).Missing? ==>
      exists i :: 0 <= i < |requested| && requested[i] == ChannelIndices(channels, requested).name &&
        requested[i] !in channels && forall k :: 0 <= k < i ==> requested[k] in channels
  {
    if forall k :: 0 <= k < |requested| ==> requested[k] in channels {
      ChannelIndicesAllPresent(channels, requested);
    } else {
      var i := FirstAbsent(channels, requested);
      ChannelIndicesFirstMissing(channels, requested, i);
    }
  }

  lemma FirstAbsent(channels: seq<string>, requested: seq<string>) returns (i: nat)
    requires exists k :: 0 <= k < |requested| && requested[k] !in channels
    ensures i < |requested| && requested[i] !in channels
    ensures forall k :: 0 <= k < i ==> requested[k] in channels
  {
    i := 0;
    while requested[i] in channels
      invariant i < |requested|
      invariant forall k :: 0 <= k < i ==> requested[k] in channels
      invariant exists k :: i <= k < |requested| && requested[k] !in channels
      decreases |requested| - i
    {
      i := i + 1;
    }
  }

  /** The loop at imc.py:376-381. */
  method GetChannelIndices(channels: seq<string>, requested: seq<string>) returns (r: Lookup)
    ensures r == ChannelIndices(channels, requested)
  {
    var channelIndices: seq<nat> := [];
    var i := 0;
    while i < |requested|
      invariant 0 <= i <= |requested|
      invariant |channelIndices| == i
      invariant forall k :: 0 <= k < i ==>
        requested[k] in channels && channelIndices[k] == IndexOf(channels, requested[k])
    {
      var channelName := requested[i];
      if channelName !in channels {
        ChannelIndicesFirstMissing(channels, requested, i);
        return Missing(channelName);
      }
      channelIndices := channelIndices + [IndexOf(channels, channelName)];
      i := i + 1;
    }
    ChannelIndicesAllPresent(channels, requested);
    r := Indices(channelIndices);
  }
}
