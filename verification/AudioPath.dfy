/**
 * Audio from the decoder's callback to the output: `OnData` queues blocks in a
 * slot, and the audio callback of the output takes at most one block from each
 * slot, one after the other, and mixes them (inc/bres+client_webrtc_inl.hh:272-326,
 * src/event.cc:5-57, src/audio.cc:48-141).  Each push and each pop is a step, so
 * blocks may arrive and slots may change in the middle of a callback.
 */
module AudioPath {
  import opened Mixer
  import opened Upsampler
  import opened Wrappers

  /** `queued` lists every block ever queued, `taken` counts those popped. */
  datatype Slot = Slot(channel: Channel, queued: seq<Block>, taken: nat)

  /** What a callback did at one slot. */
  datatype Pick = Nothing | Took(index: nat, isDraw: bool)

  /** A finished callback: the samples it left, and what it did slot by slot. */
  datatype Turn = Turn(data: seq<int>, picks: seq<Pick>)

  /** `data` and `picks` belong to the callback under way. */
  datatype Path = Path(slots: seq<Slot>, data: seq<int>, picks: seq<Pick>, turns: seq<Turn>)

  datatype Event =
    | Receive(i: nat, audio: Option<Block>, bitsPerSample: int, sampleRate: int, channels: nat, frames: nat)
    | Change(i: nat, subscribed: bool, isDraw: bool)
    | Pop       // the callback deals with its next slot
    | Finish    // and returns

  function Quiet(): seq<int> { seq(BLOCK, _ => 0) }

  function Start(n: nat): Path {
    Path(seq(n, _ => Slot(Channel(false, false, []), [], 0)), Quiet(), [], [])
  }

  predicate Enabled(p: Path, e: Event) {
    match e
    case Receive(i, audio, _, _, channels, frames) => i < |p.slots| && (audio.Some? ==> |audio.value| == frames * channels)
    case Change(i, _, _) => i < |p.slots|
    case Pop => |p.picks| < |p.slots|
    case Finish => |p.picks| == |p.slots|
  }

  function Receives(s: Slot, block: Option<Block>): Slot {
    match block
    case None => s
    case Some(b) => s.(channel := s.channel.(audio := s.channel.audio + [b]), queued := s.queued + [b])
  }

  function Added(data: seq<int>, b: Block): seq<int> {
    seq(|data|, k requires 0 <= k < |data| => if k < |b| then Clamp(data[k] + b[k]) else data[k])
  }

  predicate Gives(c: Channel) { c.subscribed && c.audio != [] }

  function PickOf(s: Slot): Pick {
    if Gives(s.channel) then Took(s.taken, s.channel.isDraw) else Nothing
  }

  function AfterPop(s: Slot): Slot {
    s.(channel := Popped(s.channel), taken := s.taken + if Gives(s.channel) then 1 else 0)
  }

  function Step(p: Path, e: Event): Path
    requires Enabled(p, e)
  {
    match e
    case Receive(i, audio, bits, rate, _, frames) =>
      p.(slots := p.slots[i := Receives(p.slots[i], Queued(audio, bits, rate, frames))])
    case Change(i, subscribed, isDraw) =>
      var s := p.slots[i];
      p.(slots := p.slots[i := s.(channel := s.channel.(subscribed := subscribed, isDraw := isDraw))])
    case Pop =>
      var s := p.slots[|p.picks|];
      p.(slots := p.slots[|p.picks| := AfterPop(s)],
         data := if Plays(s.channel) then Added(p.data, s.channel.audio[0]) else p.data,
         picks := p.picks + [PickOf(s)])
    case Finish =>
      p.(data := Quiet(), picks := [], turns := p.turns + [Turn(p.data, p.picks)])
  }

  function Exec(es: seq<Event>, n: nat): Option<Path> {
    if es == [] then Some(Start(n))
    else match Exec(es[..|es| - 1], n)
      case None => None
      case Some(p) => if Enabled(p, es[|es| - 1]) then Some(Step(p, es[|es| - 1])) else None
  }

  // ---- What a callback should play ----

  function QueuedIn(slots: seq<Slot>, i: nat): seq<Block> {
    if i < |slots| then slots[i].queued else []
  }

  /** The block a pick stands for, if it is drawn and 10ms long. */
  function Chosen(slots: seq<Slot>, i: nat, p: Pick): (bs: seq<Block>)
    ensures forall j :: 0 <= j < |bs| ==> |bs[j]| == BLOCK
  {
    match p
    case Nothing => []
    case Took(index, isDraw) =>
      var q := QueuedIn(slots, i);
      if isDraw && index < |q| && |q[index]| == BLOCK then [q[index]] else []
  }

  function Played(slots: seq<Slot>, picks: seq<Pick>): (bs: seq<Block>)
    ensures forall j :: 0 <= j < |bs| ==> |bs[j]| == BLOCK
  {
    if picks == [] then []
    else
      var last := |picks| - 1;
      Played(slots, picks[..last]) + Chosen(slots, last, picks[last])
  }

  /** The samples are the mix of the blocks picked. */
  ghost predicate IsMix(slots: seq<Slot>, data: seq<int>, picks: seq<Pick>) {
    |data| == BLOCK && forall k :: 0 <= k < BLOCK ==> data[k] == Mix(Column(Played(slots, picks), k))
  }

  /** Every pick names a block that its slot has given. */
  ghost predicate Known(slots: seq<Slot>, picks: seq<Pick>) {
    forall i :: 0 <= i < |picks| && picks[i].Took? ==> picks[i].index < |QueuedIn(slots, i)|
  }

  /** How often slot `i` has given a block. */
  function Count(turns: seq<Turn>, i: nat): nat {
    if turns == [] then 0
    else Count(turns[..|turns| - 1], i) + if TookAt(turns[|turns| - 1].picks, i) then 1 else 0
  }

  predicate TookAt(picks: seq<Pick>, i: nat) {
    i < |picks| && picks[i].Took?
  }

  // ---- The invariant ----

  /** First in, first out, and each block once. */
  ghost predicate SlotInv(s: Slot) {
    s.taken <= |s.queued| && s.channel.audio == s.queued[s.taken..]
  }

  /** A slot's picks are numbered one after the other over the callbacks. */
  ghost predicate InTurn(turns: seq<Turn>, picks: seq<Pick>, i: nat) {
    TookAt(picks, i) ==> picks[i].index == Count(turns, i)
  }

  ghost predicate TurnInv(slots: seq<Slot>, turns: seq<Turn>, t: nat)
    requires t < |turns|
  {
    && |turns[t].picks| == |slots|
    && Known(slots, turns[t].picks)
    && IsMix(slots, turns[t].data, turns[t].picks)
    && forall i :: 0 <= i < |slots| ==> InTurn(turns[..t], turns[t].picks, i)
  }

  ghost predicate Counted(p: Path, i: nat)
    requires i < |p.slots|
  {
    p.slots[i].taken == Count(p.turns, i) + if TookAt(p.picks, i) then 1 else 0
  }

  ghost predicate Inv(p: Path, n: nat) {
    && |p.slots| == n
    && |p.picks| <= n
    && (forall i :: 0 <= i < n ==> SlotInv(p.slots[i]) && Counted(p, i) && InTurn(p.turns, p.picks, i))
    && Known(p.slots, p.picks)
    && IsMix(p.slots, p.data, p.picks)
    && (forall t :: 0 <= t < |p.turns| ==> TurnInv(p.slots, p.turns, t))
  }

  /** The same blocks, and perhaps more behind them. */
  ghost predicate Grown(slots: seq<Slot>, more: seq<Slot>) {
    |slots| == |more| && forall i :: 0 <= i < |slots| ==> slots[i].queued <= more[i].queued
  }

  lemma {:induction false} PlayedStays(slots: seq<Slot>, more: seq<Slot>, picks: seq<Pick>)
    requires Grown(slots, more) && Known(slots, picks)
    ensures Known(more, picks) && Played(more, picks) == Played(slots, picks)
  {
    if picks != [] {
      var last := |picks| - 1;
      PlayedStays(slots, more, picks[..last]);
      assert Chosen(more, last, picks[last]) == Chosen(slots, last, picks[last]);
    }
  }

  lemma {:induction false} TurnStays(slots: seq<Slot>, more: seq<Slot>, turns: seq<Turn>, t: nat)
    requires Grown(slots, more) && t < |turns| && TurnInv(slots, turns, t)
    ensures TurnInv(more, turns, t)
  {
    PlayedStays(slots, more, turns[t].picks);
  }

  lemma {:induction false} TurnsStay(slots: seq<Slot>, more: seq<Slot>, turns: seq<Turn>)
    requires Grown(slots, more)
    requires forall t :: 0 <= t < |turns| ==> TurnInv(slots, turns, t)
    ensures forall t :: 0 <= t < |turns| ==> TurnInv(more, turns, t)
  {
    forall t | 0 <= t < |turns| ensures TurnInv(more, turns, t) {
      TurnStays(slots, more, turns, t);
    }
  }

  lemma {:induction false} ReceivesKeepsSlotInv(s: Slot, block: Option<Block>)
    requires SlotInv(s)
    ensures SlotInv(Receives(s, block)) && s.queued <= Receives(s, block).queued
  {
  }

  lemma {:induction false} ReceiveKeepsSlots(p: Path, e: Event, n: nat, i: nat)
    requires Inv(p, n) && Enabled(p, e) && (e.Receive? || e.Change?) && i < n
    ensures var t := Step(p, e);
      && p.slots[i].queued <= t.slots[i].queued
      && SlotInv(t.slots[i]) && Counted(t, i) && InTurn(t.turns, t.picks, i)
  {
    assert SlotInv(p.slots[i]) && Counted(p, i) && InTurn(p.turns, p.picks, i);
    if e.Receive? && i == e.i {
      ReceivesKeepsSlotInv(p.slots[i], Queued(e.audio, e.bitsPerSample, e.sampleRate, e.frames));
    }
  }

  lemma {:induction false} ReceiveKeepsInv(p: Path, e: Event, n: nat)
    requires Inv(p, n) && Enabled(p, e) && (e.Receive? || e.Change?)
    ensures Inv(Step(p, e), n)
  {
    var t := Step(p, e);
    forall i | 0 <= i < n
      ensures p.slots[i].queued <= t.slots[i].queued && SlotInv(t.slots[i]) && Counted(t, i) && InTurn(t.turns, t.picks, i)
    {
      ReceiveKeepsSlots(p, e, n, i);
    }
    assert Grown(p.slots, t.slots);
    PlayedStays(p.slots, t.slots, p.picks);
    TurnsStay(p.slots, t.slots, p.turns);
  }

  lemma {:induction false} PlayedSnoc(slots: seq<Slot>, picks: seq<Pick>, p: Pick)
    ensures Played(slots, picks + [p]) == Played(slots, picks) + Chosen(slots, |picks|, p)
  {
    assert (picks + [p])[..|picks|] == picks;
  }

  lemma {:induction false} MixOneBlock(data: seq<int>, bs: seq<Block>, b: Block, k: nat)
    requires |data| == BLOCK == |b| && k < BLOCK && (forall j :: 0 <= j < |bs| ==> |bs[j]| == BLOCK)
    requires data[k] == Mix(Column(bs, k))
    ensures Added(data, b)[k] == Mix(Column(bs + [b], k))
  {
    assert Column(bs + [b], k) == Column(bs, k) + [b[k] as int];
    MixSnoc(0, Column(bs, k), b[k]);
  }

  lemma {:induction false} MixOneMore(slots: seq<Slot>, data: seq<int>, picks: seq<Pick>, p: Pick)
    requires IsMix(slots, data, picks)
    ensures var c := Chosen(slots, |picks|, p);
      IsMix(slots, if c == [] then data else Added(data, c[0]), picks + [p])
  {
    var bs, c := Played(slots, picks), Chosen(slots, |picks|, p);
    PlayedSnoc(slots, picks, p);
    if c == [] {
      assert bs + c == bs;
    } else {
      assert c == [c[0]];
      forall k | 0 <= k < BLOCK ensures Added(data, c[0])[k] == Mix(Column(bs + c, k)) {
        MixOneBlock(data, bs, c[0], k);
      }
    }
  }

  /** What a slot gives is the block its number names. */
  lemma {:induction false} PickedBlock(slots: seq<Slot>, i: nat)
    requires i < |slots| && SlotInv(slots[i])
    ensures var s := slots[i];
      Chosen(slots, i, PickOf(s)) == if Plays(s.channel) then [s.channel.audio[0]] else []
  {
  }

  lemma {:induction false} PopKeepsMix(p: Path, n: nat)
    requires Inv(p, n) && Enabled(p, Pop)
    ensures var t := Step(p, Pop); Known(t.slots, t.picks) && IsMix(t.slots, t.data, t.picks)
  {
    var t, i := Step(p, Pop), |p.picks|;
    PickedBlock(p.slots, i);
    MixOneMore(p.slots, p.data, p.picks, PickOf(p.slots[i]));
    assert IsMix(p.slots, t.data, t.picks);
    assert Grown(p.slots, t.slots);
    PlayedStays(p.slots, t.slots, t.picks);
  }

  lemma {:induction false} PopKeepsSlots(p: Path, n: nat, i: nat)
    requires Inv(p, n) && Enabled(p, Pop) && i < n
    ensures var t := Step(p, Pop); SlotInv(t.slots[i]) && Counted(t, i) && InTurn(t.turns, t.picks, i)
  {
    var t := Step(p, Pop);
    assert SlotInv(p.slots[i]) && Counted(p, i) && InTurn(p.turns, p.picks, i);
    if i == |p.picks| {
      assert !TookAt(p.picks, i);
      assert t.picks[i] == PickOf(p.slots[i]);
    }
  }

  lemma {:induction false} PopKeepsInv(p: Path, n: nat)
    requires Inv(p, n) && Enabled(p, Pop)
    ensures Inv(Step(p, Pop), n)
  {
    var t := Step(p, Pop);
    PopKeepsMix(p, n);
    forall i | 0 <= i < n ensures SlotInv(t.slots[i]) && Counted(t, i) && InTurn(t.turns, t.picks, i) {
      PopKeepsSlots(p, n, i);
    }
    assert Grown(p.slots, t.slots);
    TurnsStay(p.slots, t.slots, p.turns);
  }

  lemma {:induction false} TurnsSnoc(slots: seq<Slot>, turns: seq<Turn>, r: Turn)
    requires forall t :: 0 <= t < |turns| ==> TurnInv(slots, turns, t)
    requires |r.picks| == |slots| && Known(slots, r.picks) && IsMix(slots, r.data, r.picks)
    requires forall i :: 0 <= i < |slots| ==> InTurn(turns, r.picks, i)
    ensures forall t :: 0 <= t < |turns + [r]| ==> TurnInv(slots, turns + [r], t)
  {
    var more := turns + [r];
    forall t | 0 <= t < |more| ensures TurnInv(slots, more, t) {
      if t < |turns| {
        assert TurnInv(slots, turns, t) && more[..t] == turns[..t] && more[t] == turns[t];
      } else {
        assert more[..t] == turns;
      }
    }
  }

  lemma {:induction false} CountSnoc(turns: seq<Turn>, r: Turn, i: nat)
    ensures Count(turns + [r], i) == Count(turns, i) + if TookAt(r.picks, i) then 1 else 0
  {
    assert (turns + [r])[..|turns|] == turns;
  }

  lemma {:induction false} QuietIsMix(slots: seq<Slot>)
    ensures Known(slots, []) && IsMix(slots, Quiet(), [])
  {
    forall k | 0 <= k < BLOCK ensures Quiet()[k] == Mix(Column(Played(slots, []), k)) {
      assert Column(Played(slots, []), k) == [];
    }
  }

  lemma {:induction false} FinishKeepsInv(p: Path, n: nat)
    requires Inv(p, n) && Enabled(p, Finish)
    ensures Inv(Step(p, Finish), n)
  {
    var t, r := Step(p, Finish), Turn(p.data, p.picks);
    TurnsSnoc(p.slots, p.turns, r);
    QuietIsMix(p.slots);
    forall i | 0 <= i < n ensures Counted(t, i) {
      assert Counted(p, i);
      CountSnoc(p.turns, r, i);
    }
  }

  lemma {:induction false} RunKeepsInv(es: seq<Event>, n: nat)
    requires Exec(es, n).Some?
    ensures Inv(Exec(es, n).value, n)
  {
    if es == [] {
      QuietIsMix(Start(n).slots);
    } else {
      RunKeepsInv(es[..|es| - 1], n);
      var p, e := Exec(es[..|es| - 1], n).value, es[|es| - 1];
      match e
      case Pop => PopKeepsInv(p, n);
      case Finish => FinishKeepsInv(p, n);
      case _ => ReceiveKeepsInv(p, e, n);
    }
  }

  // ---- Main results, over every run ----

  function ReceivedBy(e: Event, i: nat): seq<Block> {
    match e
    case Receive(j, audio, bits, rate, _, frames) =>
      if j == i && Queued(audio, bits, rate, frames).Some? then [Queued(audio, bits, rate, frames).value] else []
    case _ => []
  }

  /** The blocks that `OnData` queued in slot `i`, in order. */
  function Received(es: seq<Event>, i: nat): seq<Block> {
    if es == [] then [] else Received(es[..|es| - 1], i) + ReceivedBy(es[|es| - 1], i)
  }

  lemma {:induction false} StepQueues(p: Path, e: Event, i: nat)
    requires Enabled(p, e) && i < |p.slots|
    ensures |Step(p, e).slots| == |p.slots| && Step(p, e).slots[i].queued == p.slots[i].queued + ReceivedBy(e, i)
  {
  }

  lemma {:induction false} QueuedIsReceived(es: seq<Event>, n: nat, i: nat)
    requires Exec(es, n).Some? && i < n
    ensures |Exec(es, n).value.slots| == n && Exec(es, n).value.slots[i].queued == Received(es, i)
  {
    if es != [] {
      QueuedIsReceived(es[..|es| - 1], n, i);
      StepQueues(Exec(es[..|es| - 1], n).value, es[|es| - 1], i);
    }
  }

  /** Nothing is lost, repeated or reordered between `OnData` and the callback: the
      blocks a slot has given, one for each callback that found one, are the first
      that were queued, and the others wait in order. */
  lemma {:induction false} BlocksAreTakenInOrder(es: seq<Event>, n: nat, i: nat)
    requires Exec(es, n).Some? && i < n
    ensures var p := Exec(es, n).value;
      && |p.slots| == n && p.slots[i].taken <= |Received(es, i)|
      && p.slots[i].channel.audio == Received(es, i)[p.slots[i].taken..]
      && p.slots[i].taken == Count(p.turns, i) + (if TookAt(p.picks, i) then 1 else 0)
  {
    RunKeepsInv(es, n);
    QueuedIsReceived(es, n, i);
    var p := Exec(es, n).value;
    assert SlotInv(p.slots[i]) && Counted(p, i);
  }

  /** What each callback plays: the mix, in the order of the slots, of one block from
      each drawn slot that had one; and that block is the one next to those the slot
      gave to earlier callbacks. */
  lemma {:induction false} EachTurnMixesTheNextBlocks(es: seq<Event>, n: nat, t: nat, k: nat, i: nat)
    requires Exec(es, n).Some? && t < |Exec(es, n).value.turns| && k < BLOCK && i < n
    ensures var p := Exec(es, n).value;
      && |p.turns[t].data| == BLOCK && |p.turns[t].picks| == n == |p.slots|
      && p.turns[t].data[k] == Mix(Column(Played(p.slots, p.turns[t].picks), k))
      && p.slots[i].queued == Received(es, i)
      && (p.turns[t].picks[i].Took? ==>
            p.turns[t].picks[i].index == Count(p.turns[..t], i) < |Received(es, i)|)
  {
    RunKeepsInv(es, n);
    QueuedIsReceived(es, n, i);
    var p := Exec(es, n).value;
    assert TurnInv(p.slots, p.turns, t);
    assert InTurn(p.turns[..t], p.turns[t].picks, i);
  }

  lemma {:induction false} CountsAll(turns: seq<Turn>, i: nat)
    ensures Count(turns, i) <= |turns|
    ensures Count(turns, i) == |turns| <==> forall u :: 0 <= u < |turns| ==> TookAt(turns[u].picks, i)
  {
    if turns != [] {
      var last := |turns| - 1;
      CountsAll(turns[..last], i);
      assert forall u :: 0 <= u < last ==> turns[..last][u] == turns[u];
    }
  }

  /** A slot's k-th block is in the k-th callback if and only if the slot has had a
      block for every callback so far. */
  lemma {:induction false} KthTurnTakesKthBlockExactlyWhen(es: seq<Event>, n: nat, t: nat, i: nat)
    requires Exec(es, n).Some? && t < |Exec(es, n).value.turns| && i < n
    ensures var turns := Exec(es, n).value.turns;
      (TookAt(turns[t].picks, i) && turns[t].picks[i].index == t)
      <==> forall u :: 0 <= u <= t ==> TookAt(turns[u].picks, i)
  {
    var turns := Exec(es, n).value.turns;
    EachTurnMixesTheNextBlocks(es, n, t, 0, i);
    CountsAll(turns[..t], i);
    assert forall u :: 0 <= u < t ==> turns[..t][u] == turns[u];
  }

  /** Both formats queue 480 samples for each audio channel, so a block can be heard
      if and only if it was received with one channel. */
  lemma {:induction false} HeardExactlyForOneChannel(es: seq<Event>, n: nat, e: Event)
    requires Exec(es, n).Some? && Enabled(Exec(es, n).value, e) && e.Receive? && ReceivedBy(e, e.i) != []
    ensures var b := ReceivedBy(e, e.i)[0];
      && |b| == BLOCK * e.channels
      && (Plays(Channel(true, true, [b])) <==> e.channels == 1)
  {
  }

  // ---- A callback by itself ----

  function Channels(slots: seq<Slot>): seq<Channel> {
    seq(|slots|, i requires 0 <= i < |slots| => slots[i].channel)
  }

  /** The state after the first `m` slots of a callback that nothing interrupts. */
  function Pops(p: Path, m: nat): Path
    requires |p.picks| + m <= |p.slots|
    ensures |Pops(p, m).slots| == |p.slots| && |Pops(p, m).picks| == |p.picks| + m
  {
    if m == 0 then p else Step(Pops(p, m - 1), Pop)
  }

  /** The channels and the samples are those of the channel loop after `m` channels. */
  ghost predicate AsInTheLoop(cs: seq<Channel>, q: Path, m: nat)
    requires m <= |cs|
  {
    && Channels(q.slots) == PoppedAll(cs[..m]) + cs[m..]
    && |q.data| == BLOCK
    && forall k :: 0 <= k < BLOCK ==> q.data[k] == Mixed(cs[..m], k)
  }

  lemma {:induction false} MixedNext(cs: seq<Channel>, m: nat, k: nat)
    requires m < |cs| && k < BLOCK
    ensures Mixed(cs[..m + 1], k) == if Plays(cs[m]) then Clamp(Mixed(cs[..m], k) + cs[m].audio[0][k]) else Mixed(cs[..m], k)
  {
    assert cs[..m + 1] == cs[..m] + [cs[m]];
    MixedSnoc(cs[..m], cs[m], k);
  }

  lemma {:induction false} PoppedNext(cs: seq<Channel>, m: nat)
    requires m < |cs|
    ensures (PoppedAll(cs[..m]) + cs[m..])[m := Popped(cs[m])] == PoppedAll(cs[..m + 1]) + cs[m + 1..]
  {
  }

  lemma {:induction false} PopIsOneTurnOfTheLoop(cs: seq<Channel>, q: Path, m: nat)
    requires m < |cs| == |q.slots| && |q.picks| == m && AsInTheLoop(cs, q, m)
    ensures AsInTheLoop(cs, Step(q, Pop), m + 1)
  {
    var t := Step(q, Pop);
    assert q.slots[m].channel == Channels(q.slots)[m] == cs[m];
    PoppedNext(cs, m);
    assert Channels(t.slots) == Channels(q.slots)[m := Popped(cs[m])];
    forall k | 0 <= k < BLOCK ensures t.data[k] == Mixed(cs[..m + 1], k) { MixedNext(cs, m, k); }
  }

  /** Left alone, a callback does to the channels and the samples what the channel
      loop does. */
  lemma {:induction false} UndisturbedCallbackIsTheLoop(p: Path, m: nat)
    requires p.picks == [] && p.data == Quiet() && m <= |p.slots|
    ensures AsInTheLoop(Channels(p.slots), Pops(p, m), m)
  {
    var cs := Channels(p.slots);
    if m == 0 {
      assert cs[..0] == [] && cs[0..] == cs;
      forall k | 0 <= k < BLOCK ensures p.data[k] == Mixed(cs[..0], k) { assert Column(Playing([]), k) == []; }
    } else {
      UndisturbedCallbackIsTheLoop(p, m - 1);
      PopIsOneTurnOfTheLoop(cs, Pops(p, m - 1), m - 1);
    }
  }

  // ---- Pushes and changes ----

  /** At any moment a slot may change, a block may be queued in it, and the callback
      can go on. */
  lemma {:induction false} NoThreadWaits(es: seq<Event>, n: nat, i: nat, subscribed: bool, isDraw: bool, audio: Block, channels: nat)
    requires Exec(es, n).Some? && i < n && |audio| == 480 * channels
    ensures var p := Exec(es, n).value;
      && |p.slots| == n
      && Enabled(p, if |p.picks| < n then Pop else Finish)
      && Enabled(p, Change(i, subscribed, isDraw))
      && Step(p, Change(i, subscribed, isDraw))
           == p.(slots := p.slots[i := p.slots[i].(channel := Channel(subscribed, isDraw, p.slots[i].channel.audio))])
      && var e := Receive(i, Some(audio), 16, 48000, channels, 480);
         && Enabled(p, e)
         && Step(p, e) == p.(slots := p.slots[i := Slot(
              Channel(p.slots[i].channel.subscribed, p.slots[i].channel.isDraw, p.slots[i].channel.audio + [audio]),
              p.slots[i].queued + [audio], p.slots[i].taken)])
  {
    RunKeepsInv(es, n);
  }
}
