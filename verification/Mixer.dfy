/**
 * The saturating mixer of the two audio callbacks (src/audio.cc:48-141).
 * Samples are 16-bit values; a block of PCM is a sequence of them.
 */
module Mixer {
  import opened Wrappers

  type Sample = x: int | -32768 <= x <= 32767
  type Block = seq<Sample>

  /** The lower clamp is -32767, not the lowest sample. */
  const HIGH := 32767
  const LOW := -32767
  const BLOCK: nat := 480

  function Clamp(x: int): (r: Sample)
    ensures LOW <= r <= HIGH
    ensures LOW <= x <= HIGH ==> r == x
  {
    if x > HIGH then HIGH else if x < LOW then LOW else x
  }

  /** The contributions of successive channels to one sample, mixed onto `acc`. */
  function MixOnto(acc: int, ps: seq<int>): int {
    if ps == [] then acc else Clamp(MixOnto(acc, ps[..|ps| - 1]) + ps[|ps| - 1])
  }

  function Mix(ps: seq<int>): int { MixOnto(0, ps) }

  lemma {:induction false} MixSnoc(acc: int, ps: seq<int>, p: int)
    ensures MixOnto(acc, ps + [p]) == Clamp(MixOnto(acc, ps) + p)
  {
    assert (ps + [p])[..|ps|] == ps;
  }

  // ---- The callbacks ----

  /** A slot of `pooled_instances`, as far as audio is concerned. */
  datatype Channel = Channel(subscribed: bool, isDraw: bool, audio: seq<Block>)

  function Popped(c: Channel): Channel {
    if c.subscribed && c.audio != [] then c.(audio := c.audio[1..]) else c
  }

  function PoppedAll(cs: seq<Channel>): seq<Channel> {
    seq(|cs|, i requires 0 <= i < |cs| => Popped(cs[i]))
  }

  /** The first queued block counts only if the channel is drawn and the block is
      10ms long; it is used up either way. */
  predicate Plays(c: Channel) {
    c.subscribed && c.audio != [] && c.isDraw && |c.audio[0]| == BLOCK
  }

  function Playing(cs: seq<Channel>): (bs: seq<Block>)
    ensures forall i :: 0 <= i < |bs| ==> |bs[i]| == BLOCK
  {
    if cs == [] then []
    else
      var c := cs[|cs| - 1];
      Playing(cs[..|cs| - 1]) + if Plays(c) then [c.audio[0]] else []
  }

  function Column(bs: seq<Block>, k: nat): seq<int>
    requires forall i :: 0 <= i < |bs| ==> k < |bs[i]|
  {
    seq(|bs|, i requires 0 <= i < |bs| => bs[i][k])
  }

  function Mixed(cs: seq<Channel>, k: nat): int
    requires k < BLOCK
  {
    Mix(Column(Playing(cs), k))
  }

  lemma {:induction false} MixedSnoc(cs: seq<Channel>, c: Channel, k: nat)
    requires k < BLOCK
    ensures Playing(cs + [c]) == Playing(cs) + if Plays(c) then [c.audio[0]] else []
    ensures Mixed(cs + [c], k) == if Plays(c) then Clamp(Mixed(cs, k) + c.audio[0][k]) else Mixed(cs, k)
  {
    assert (cs + [c])[..|cs|] == cs;
    if Plays(c) {
      assert Column(Playing(cs + [c]), k) == Column(Playing(cs), k) + [c.audio[0][k] as int];
      MixSnoc(0, Column(Playing(cs), k), c.audio[0][k]);
    } else {
      assert Playing(cs + [c]) == Playing(cs);
    }
  }

  lemma {:induction false} NextChannel(cs: seq<Channel>, i: nat)
    requires i < |cs|
    ensures cs[..i + 1] == cs[..i] + [cs[i]]
    ensures |Playing(cs[..i + 1])| == |Playing(cs[..i])| + if Plays(cs[i]) then 1 else 0
  {
    MixedSnoc(cs[..i], cs[i], 0);
  }

  /** The loop both callbacks run over one block. */
  method MixBlock(data: array<Sample>, pcm: Block)
    requires |pcm| == BLOCK <= data.Length
    modifies data
    ensures forall k :: 0 <= k < BLOCK ==> data[k] == Clamp(old(data[k]) as int + pcm[k])
    ensures forall k :: 0 <= k < 480 ==>
      var sum := old(data[k]) as int + pcm[k];
      data[k] == if sum > 32767 then 32767 else if sum < -32767 then -32767 else sum
    ensures forall k :: BLOCK <= k < data.Length ==> data[k] == old(data[k])
  {
    for n := 0 to BLOCK
      invariant forall k :: 0 <= k < n ==> data[k] == Clamp(old(data[k]) as int + pcm[k])
      invariant forall k :: n <= k < data.Length ==> data[k] == old(data[k])
    {
      var p: int := pcm[n];
      var chk: int := data[n];
      if chk + p > 32767 {
        data[n] := 32767;
      } else if chk + p < -32767 {
        data[n] := -32767;
      } else {
        data[n] := chk + p;
      }
    }
  }

  method Silence(data: array<Sample>)
    modifies data
    ensures forall k :: 0 <= k < data.Length ==> data[k] == 0
  {
    for n := 0 to data.Length
      invariant forall k :: 0 <= k < n ==> data[k] == 0
    {
      data[n] := 0;
    }
  }

  /** What the loop has made of `data` after the channels `cs`. */
  ghost predicate Holds(data: array<Sample>, cs: seq<Channel>)
    requires BLOCK <= data.Length
    reads data
  {
    && (forall k :: 0 <= k < BLOCK ==> data[k] == Mixed(cs, k))
    && (forall k :: BLOCK <= k < data.Length ==> data[k] == 0)
  }

  /** One turn of the channel loop. */
  method MixChannel(channels: array<Channel>, i: nat, data: array<Sample>, ghost before: seq<Channel>) returns (played: bool)
    requires i < channels.Length && BLOCK <= data.Length && Holds(data, before)
    modifies channels, data
    ensures channels[..] == old(channels[..])[i := Popped(old(channels[i]))]
    ensures Holds(data, before + [old(channels[i])])
    ensures played == Plays(old(channels[i]))
  {
    played := false;
    var c := channels[i];
    forall k | 0 <= k < BLOCK ensures Mixed(before + [c], k) == if Plays(c) then Clamp(Mixed(before, k) + c.audio[0][k]) else Mixed(before, k) {
      MixedSnoc(before, c, k);
    }
    if c.subscribed {
      if c.audio != [] {
        var pcm := c.audio[0];
        channels[i] := c.(audio := c.audio[1..]);
        if c.isDraw && |pcm| == 480 {
          MixBlock(data, pcm);
          played := true;
        }
      }
    }
  }

  /** The channel loop: after it `data` is the mix of every playing channel. */
  method MixChannels(channels: array<Channel>, data: array<Sample>) returns (chann: nat)
    requires BLOCK <= data.Length
    modifies channels, data
    ensures channels[..] == PoppedAll(old(channels[..]))
    ensures Holds(data, old(channels[..]))
    ensures forall k :: 0 <= k < 480 ==> data[k] == Mix(Column(Playing(old(channels[..])), k))
    ensures forall k :: 480 <= k < data.Length ==> data[k] == 0
    ensures chann == |Playing(old(channels[..]))|
  {
    ghost var cs := channels[..];
    Silence(data);
    chann := 0;
    for i := 0 to channels.Length
      invariant forall j :: 0 <= j < i ==> channels[j] == Popped(cs[j])
      invariant forall j :: i <= j < channels.Length ==> channels[j] == cs[j]
      invariant Holds(data, cs[..i])
      invariant chann == |Playing(cs[..i])|
    {
      NextChannel(cs, i);
      var played := MixChannel(channels, i, data, cs[..i]);
      chann := chann + if played then 1 else 0;
    }
    assert cs[..channels.Length] == cs;
  }

  /** The mono mix in every other place of a stereo block, zeros between. */
  function Spread(cs: seq<Channel>): seq<int> {
    seq(2 * BLOCK, (i: int) requires 0 <= i < 2 * BLOCK => if i % 2 == 0 then Mixed(cs, i / 2) else 0)
  }

  class Audio {
    var buffer10ms: seq<int>

    constructor ()
      ensures buffer10ms == []
    {
      buffer10ms := [];
    }

    /** `audioCallback`; the result is what `audioRender_->Render` is given.  One
        block fills `buffer10ms`, so each one is rendered at once.  The program
        writes the stereo buffer while it mixes; only its final contents are used. */
    method AudioCallback(channels: array<Channel>, data: array<Sample>, publishing: bool) returns (rendered: Option<seq<int>>)
      requires BLOCK <= data.Length
      modifies this, channels, data
      ensures channels[..] == PoppedAll(old(channels[..]))
      ensures Holds(data, old(channels[..]))
      ensures forall k :: 0 <= k < 480 ==> data[k] == Mix(Column(Playing(old(channels[..])), k))
      ensures forall k :: 480 <= k < data.Length ==> data[k] == 0
      ensures if publishing && Playing(old(channels[..])) != []
              then rendered == Some(old(buffer10ms) + Spread(old(channels[..]))) && buffer10ms == []
              else rendered == None && buffer10ms == old(buffer10ms)
      ensures rendered.Some? ==>
        && |rendered.value| == |old(buffer10ms)| + 960
        && rendered.value[..|old(buffer10ms)|] == old(buffer10ms)
        && forall k :: 0 <= k < 480 ==>
             rendered.value[|old(buffer10ms)| + 2 * k] == data[k] && rendered.value[|old(buffer10ms)| + 2 * k + 1] == 0
    {
      ghost var cs := channels[..];
      var chann := MixChannels(channels, data);
      rendered := None;
      if chann > 0 && publishing {
        var audioBuffer := Stereo(data);
        assert audioBuffer == Spread(cs);
        buffer10ms := buffer10ms + audioBuffer;
        if |buffer10ms| >= 960 {
          rendered := Some(buffer10ms);
          buffer10ms := [];
        }
      }
    }

    /** Each sample in every other place of a stereo block. */
    static method Stereo(data: array<Sample>) returns (block: seq<int>)
      requires BLOCK <= data.Length
      ensures |block| == 960
      ensures forall k :: 0 <= k < 480 ==> block[2 * k] == data[k] && block[2 * k + 1] == 0
      ensures forall i :: 0 <= i < 960 ==> block[i] == if i % 2 == 0 then data[i / 2] as int else 0
    {
      var audioBuffer := new int[960](_ => 0);
      for n := 0 to 480
        invariant forall i :: 0 <= i < 960 ==> audioBuffer[i] == if i % 2 == 0 && i / 2 < n then data[i / 2] else 0
      {
        audioBuffer[2 * n] := data[n];
      }
      block := audioBuffer[..];
    }

    /** `audioCallbackSDI`; `len` is in bytes, four to a stereo frame. */
    static method AudioCallbackSDI(channels: array<Channel>, data: array<Sample>, len: nat) returns (targetCount: nat)
      requires BLOCK <= data.Length && len == 2 * data.Length
      modifies channels, data
      ensures targetCount == len / 4
      ensures channels[..] == PoppedAll(old(channels[..]))
      ensures Holds(data, old(channels[..]))
      ensures forall k :: 0 <= k < 480 ==> data[k] == Mix(Column(Playing(old(channels[..])), k))
      ensures forall k :: 480 <= k < data.Length ==> data[k] == 0
    {
      targetCount := len / 4;
      var _ := MixChannels(channels, data);
    }
  }
}
