/**
 * Streaming a child's two output pipes: one reader thread per pipe, a shared
 * queue, an end-of-stream item per reader, one consumer and a deadline.
 */
module LineStreamer {
  import opened Text

  datatype Tag = Stdout | Stderr

  datatype Item = Line(tag: Tag, text: string) | End(tag: Tag)

  datatype Phase = Streaming | Drained | TimedOut

  /** What each opened pipe will deliver before its reader stops, and the deadline. */
  datatype Child = Child(lines: map<Tag, seq<string>>, deadline: nat)

  /**
   * `sent` counts the lines a reader has put, `ended` the readers that are
   * done, `taken` everything the consumer has got from the queue so far.
   */
  datatype State = State(
    sent: map<Tag, nat>, ended: set<Tag>, queue: seq<Item>, taken: seq<Item>,
    open: nat, clock: nat, phase: Phase)

  datatype Action = Put(tag: Tag) | Close(tag: Tag) | Tick | Get | GiveUp | Finish

  function Init(c: Child): State {
    State(map t | t in c.lines :: 0, {}, [], [], |c.lines.Keys|, 0, Streaming)
  }

  predicate Enabled(c: Child, s: State, a: Action) {
    match a
    case Put(t) => t in c.lines && t in s.sent && t !in s.ended && s.sent[t] < |c.lines[t]|
    case Close(t) => t in c.lines && t in s.sent && t !in s.ended && s.sent[t] == |c.lines[t]|
    case Tick => true
    case Get => s.phase == Streaming && s.open > 0 && s.queue != []
    case GiveUp => s.phase == Streaming && s.open > 0 && s.queue == [] && s.clock >= c.deadline
    case Finish => s.phase == Streaming && s.open == 0
  }

  function Step(c: Child, s: State, a: Action): State
    requires Enabled(c, s, a)
  {
    match a
    case Put(t) => s.(sent := s.sent[t := s.sent[t] + 1], queue := s.queue + [Line(t, c.lines[t][s.sent[t]])])
    case Close(t) => s.(ended := s.ended + {t}, queue := s.queue + [End(t)])
    case Tick => s.(clock := s.clock + 1)
    case Get =>
      s.(queue := s.queue[1..], taken := s.taken + [s.queue[0]],
         open := if s.queue[0].End? then s.open - 1 else s.open)
    case GiveUp => s.(phase := TimedOut)
    case Finish => s.(phase := Drained)
  }

  ghost predicate Legal(c: Child, actions: seq<Action>)
    decreases |actions|, 0
  {
    actions == [] ||
    (Legal(c, actions[..|actions| - 1]) && Enabled(c, After(c, actions[..|actions| - 1]), actions[|actions| - 1]))
  }

  ghost function After(c: Child, actions: seq<Action>): State
    requires Legal(c, actions)
    decreases |actions|, 1
  {
    if actions == [] then Init(c) else Step(c, After(c, actions[..|actions| - 1]), actions[|actions| - 1])
  }

  // --------------------------------------------------------------- projection

  function OfTag(items: seq<Item>, t: Tag): seq<Item> {
    if items == [] then [] else
      OfTag(items[..|items| - 1], t) + (if items[|items| - 1].tag == t then [items[|items| - 1]] else [])
  }

  lemma {:induction false} OfTagMember(items: seq<Item>, x: Item)
    ensures x in OfTag(items, x.tag) <==> x in items
  {
    if items != [] {
      OfTagMember(items[..|items| - 1], x);
      assert items == items[..|items| - 1] + [items[|items| - 1]];
    }
  }

  lemma OfTagAppend(items: seq<Item>, x: Item, t: Tag)
    ensures OfTag(items + [x], t) == if x.tag == t then OfTag(items, t) + [x] else OfTag(items, t)
  {
    assert (items + [x])[..|items|] == items;
  }

  lemma {:induction false} OfTagConcat(a: seq<Item>, b: seq<Item>, t: Tag)
    ensures OfTag(a + b, t) == OfTag(a, t) + OfTag(b, t)
  {
    if b == [] {
      assert a + b == a;
    } else {
      assert (a + b)[..|a + b| - 1] == a + b[..|b| - 1];
      OfTagConcat(a, b[..|b| - 1], t);
    }
  }

  function Items(t: Tag, lines: seq<string>): (r: seq<Item>)
    ensures |r| == |lines| && forall i :: 0 <= i < |r| ==> r[i] == Line(t, lines[i])
  {
    seq(|lines|, i requires 0 <= i < |lines| => Line(t, lines[i]))
  }

  /** The lines the consumer has yielded. */
  function Yielded(taken: seq<Item>): seq<(Tag, string)> {
    if taken == [] then [] else
      Yielded(taken[..|taken| - 1]) +
      (match taken[|taken| - 1] case Line(t, l) => [(t, l)] case End(_) => [])
  }

  /** The yielded lines of one stream, in order. */
  function LinesOf(yielded: seq<(Tag, string)>, t: Tag): seq<string> {
    if yielded == [] then [] else
      LinesOf(yielded[..|yielded| - 1], t) +
      (if yielded[|yielded| - 1].0 == t then [yielded[|yielded| - 1].1] else [])
  }

  lemma YieldAppend(items: seq<Item>, x: Item, t: Tag)
    ensures LinesOf(Yielded(items + [x]), t) ==
      LinesOf(Yielded(items), t) + (if x.Line? && x.tag == t then [x.text] else [])
  {
    var y := Yielded(items);
    assert (items + [x])[..|items|] == items;
    match x {
      case Line(u, l) =>
        assert Yielded(items + [x]) == y + [(u, l)];
        assert (y + [(u, l)])[..|y|] == y;
      case End(_) =>
        assert Yielded(items + [x]) == y;
    }
  }

  /** Yielding and then selecting a stream is selecting its items and dropping the end marks. */
  lemma {:induction false} YieldedOfTag(taken: seq<Item>, t: Tag)
    ensures LinesOf(Yielded(taken), t) == LinesOf(Yielded(OfTag(taken, t)), t)
  {
    if taken != [] {
      var init, last := taken[..|taken| - 1], taken[|taken| - 1];
      assert taken == init + [last];
      YieldedOfTag(init, t);
      YieldAppend(init, last, t);
      OfTagAppend(init, last, t);
      YieldAppend(OfTag(init, t), last, t);
    }
  }

  lemma {:induction false} YieldItems(t: Tag, lines: seq<string>)
    ensures LinesOf(Yielded(Items(t, lines)), t) == lines
  {
    if lines != [] {
      var init, last := lines[..|lines| - 1], lines[|lines| - 1];
      YieldItems(t, init);
      assert Items(t, lines) == Items(t, init) + [Line(t, last)];
      YieldAppend(Items(t, init), Line(t, last), t);
    }
  }

  // ---------------------------------------------------------------- invariant

  /** What a reader of `lines` has put after `sent` lines, with its end mark if it is done. */
  function PutBy(t: Tag, lines: seq<string>, sent: nat, ended: bool): seq<Item>
    requires sent <= |lines|
  {
    Items(t, lines[..sent]) + (if ended then [End(t)] else [])
  }

  function EndsIn(items: seq<Item>): set<Tag> {
    set t: Tag | End(t) in items
  }

  /** The part of `log` that stream `t` put is exactly its progress. */
  ghost predicate Exact(c: Child, s: State, log: seq<Item>, t: Tag) {
    && t in c.lines && t in s.sent && s.sent[t] <= |c.lines[t]|
    && (t in s.ended ==> s.sent[t] == |c.lines[t]|)
    && OfTag(log, t) == PutBy(t, c.lines[t], s.sent[t], t in s.ended)
  }

  ghost predicate Inv(c: Child, s: State) {
    && (forall t :: t in c.lines ==> Exact(c, s, s.taken + s.queue, t))
    && (forall x :: x in s.taken + s.queue ==> x.tag in c.lines)
    && s.open == |c.lines.Keys - EndsIn(s.taken)|
    && (s.phase == Drained ==> s.open == 0)
  }

  lemma PutLine(t: Tag, lines: seq<string>, sent: nat)
    requires sent < |lines|
    ensures PutBy(t, lines, sent + 1, false) == PutBy(t, lines, sent, false) + [Line(t, lines[sent])]
  {
    assert lines[..sent + 1] == lines[..sent] + [lines[sent]];
  }

  /** What a reader puts next. */
  function PutItem(c: Child, s: State, a: Action): Item
    requires Enabled(c, s, a) && (a.Put? || a.Close?)
  {
    if a.Put? then Line(a.tag, c.lines[a.tag][s.sent[a.tag]]) else End(a.tag)
  }

  lemma PutExact(c: Child, s: State, a: Action, log: seq<Item>, u: Tag)
    requires Enabled(c, s, a) && (a.Put? || a.Close?)
    requires u in c.lines && Exact(c, s, log, u) && Exact(c, s, log, a.tag)
    ensures Exact(c, Step(c, s, a), log + [PutItem(c, s, a)], u)
  {
    OfTagAppend(log, PutItem(c, s, a), u);
    if a.Put? {
      PutLine(a.tag, c.lines[a.tag], s.sent[a.tag]);
    }
  }

  lemma PutStep(c: Child, s: State, a: Action)
    requires Inv(c, s) && Enabled(c, s, a) && (a.Put? || a.Close?)
    ensures Inv(c, Step(c, s, a))
  {
    var n := Step(c, s, a);
    var log := s.taken + s.queue;
    assert n.taken + n.queue == log + [PutItem(c, s, a)];
    forall u | u in c.lines
      ensures Exact(c, n, n.taken + n.queue, u)
    {
      PutExact(c, s, a, log, u);
    }
  }

  /** Taking an item: an end mark is new, so one more stream is done. */
  lemma TakeCounts(c: Child, taken: seq<Item>, x: Item)
    requires x.End? ==> x !in taken && x.tag in c.lines
    ensures |c.lines.Keys - EndsIn(taken + [x])| == |c.lines.Keys - EndsIn(taken)| - (if x.End? then 1 else 0)
  {
    if x.End? {
      assert EndsIn(taken + [x]) == EndsIn(taken) + {x.tag};
      assert c.lines.Keys - EndsIn(taken + [x]) == (c.lines.Keys - EndsIn(taken)) - {x.tag};
    } else {
      assert EndsIn(taken + [x]) == EndsIn(taken);
    }
  }

  lemma ExactStays(c: Child, s: State, n: State, log: seq<Item>, u: Tag)
    requires Exact(c, s, log, u) && n.sent == s.sent && n.ended == s.ended
    ensures Exact(c, n, log, u)
  {
  }

  lemma GetStep(c: Child, s: State)
    requires Inv(c, s) && Enabled(c, s, Get)
    ensures Inv(c, Step(c, s, Get))
  {
    var n := Step(c, s, Get);
    assert n.taken + n.queue == s.taken + s.queue;
    forall u | u in c.lines
      ensures Exact(c, n, s.taken + s.queue, u)
    {
      ExactStays(c, s, n, s.taken + s.queue, u);
    }
    GetCounts(c, s);
  }

  lemma GetCounts(c: Child, s: State)
    requires Inv(c, s) && Enabled(c, s, Get)
    ensures Step(c, s, Get).open == |c.lines.Keys - EndsIn(s.taken + [s.queue[0]])|
  {
    if s.queue[0].End? {
      EndIsNew(c, s);
    }
    TakeCounts(c, s.taken, s.queue[0]);
  }

  /** An end mark still in the queue has not been taken before. */
  lemma EndIsNew(c: Child, s: State)
    requires Inv(c, s) && s.queue != [] && s.queue[0].End?
    ensures s.queue[0] !in s.taken && s.queue[0].tag in c.lines
  {
    var x := s.queue[0];
    assert (s.taken + s.queue)[|s.taken|] == x;
    if x in s.taken {
      NothingBehindEnd(c, s, x.tag);
      OfTagMember(s.queue, x);
    }
  }

  lemma {:induction false} InvAlways(c: Child, actions: seq<Action>)
    requires Legal(c, actions)
    ensures Inv(c, After(c, actions))
  {
    if actions == [] {
      assert c.lines.Keys - EndsIn([]) == c.lines.Keys;
    } else {
      var init, a := actions[..|actions| - 1], actions[|actions| - 1];
      InvAlways(c, init);
      if a.Put? || a.Close? {
        PutStep(c, After(c, init), a);
      } else if a.Get? {
        GetStep(c, After(c, init));
      } else {
        OtherStep(c, After(c, init), a);
      }
    }
  }

  lemma OtherStep(c: Child, s: State, a: Action)
    requires Inv(c, s) && Enabled(c, s, a) && (a.Tick? || a.GiveUp? || a.Finish?)
    ensures Inv(c, Step(c, s, a))
  {
    forall u | u in c.lines
      ensures Exact(c, Step(c, s, a), s.taken + s.queue, u)
    {
      ExactStays(c, s, Step(c, s, a), s.taken + s.queue, u);
    }
  }

  // ------------------------------------------------------------ what it means

  /** A stream whose end mark was taken has nothing left in the queue. */
  lemma NothingBehindEnd(c: Child, s: State, t: Tag)
    requires Inv(c, s) && t in c.lines && End(t) in s.taken
    ensures OfTag(s.queue, t) == [] && OfTag(s.taken, t) == Items(t, c.lines[t]) + [End(t)]
  {
    OfTagMember(s.taken, End(t));
    OfTagConcat(s.taken, s.queue, t);
    EndMeansAll(c, s, t, OfTag(s.taken, t) + OfTag(s.queue, t));
    EndIsLast(OfTag(s.taken, t), OfTag(s.queue, t), t, c.lines[t]);
  }

  /** A stream with an end mark in the log has put all its lines. */
  lemma EndMeansAll(c: Child, s: State, t: Tag, log: seq<Item>)
    requires Inv(c, s) && t in c.lines && log == OfTag(s.taken + s.queue, t) && End(t) in log
    ensures log == Items(t, c.lines[t]) + [End(t)]
  {
    assert Exact(c, s, s.taken + s.queue, t);
    assert c.lines[t][..|c.lines[t]|] == c.lines[t];
  }

  lemma EndIsLast(a: seq<Item>, b: seq<Item>, t: Tag, lines: seq<string>)
    requires End(t) in a && a + b == Items(t, lines) + [End(t)]
    ensures b == [] && a == Items(t, lines) + [End(t)]
  {
    var log := Items(t, lines) + [End(t)];
    var i :| 0 <= i < |a| && a[i] == End(t);
    assert (a + b)[i] == log[i] && i == |lines|;
    assert |a| + |b| == |lines| + 1;
  }

  /**
   * A normal end: whatever the scheduling, each stream's lines were yielded
   * exactly once and in order, one end mark per stream was consumed, and the
   * queue is empty.
   */
  lemma NormalEndIsComplete(c: Child, actions: seq<Action>)
    requires Legal(c, actions) && After(c, actions).phase == Drained
    ensures var s := After(c, actions);
      && s.queue == []
      && (forall t :: t in c.lines ==> OfTag(s.taken, t) == Items(t, c.lines[t]) + [End(t)])
      && (forall t :: t in c.lines ==> LinesOf(Yielded(s.taken), t) == c.lines[t])
  {
    InvAlways(c, actions);
    var s := After(c, actions);
    if s.queue != [] {
      QueuedItemIsOfItsStream(c, s);
    }
    assert c.lines.Keys - EndsIn(s.taken) == {};
    forall t | t in c.lines
      ensures OfTag(s.queue, t) == []
      ensures OfTag(s.taken, t) == Items(t, c.lines[t]) + [End(t)]
      ensures LinesOf(Yielded(s.taken), t) == c.lines[t]
    {
      assert t !in c.lines.Keys - EndsIn(s.taken);
      NothingBehindEnd(c, s, t);
      YieldedOfTag(s.taken, t);
      YieldAppend(Items(t, c.lines[t]), End(t), t);
      YieldItems(t, c.lines[t]);
    }
  }

  /** A queued item belongs to a stream that still has something queued. */
  lemma QueuedItemIsOfItsStream(c: Child, s: State)
    requires Inv(c, s) && s.queue != []
    ensures s.queue[0].tag in c.lines && OfTag(s.queue, s.queue[0].tag) != []
  {
    assert (s.taken + s.queue)[|s.taken|] == s.queue[0];
    OfTagMember(s.queue, s.queue[0]);
  }

  /** With an empty queue everything put so far has been yielded. */
  lemma EmptyQueueYieldsAll(c: Child, s: State, t: Tag)
    requires Inv(c, s) && s.queue == [] && t in c.lines
    ensures t in s.sent && s.sent[t] <= |c.lines[t]|
    ensures LinesOf(Yielded(s.taken), t) == c.lines[t][..s.sent[t]]
    ensures t in s.ended ==> End(t) in s.taken
  {
    assert s.taken + s.queue == s.taken;
    assert Exact(c, s, s.taken, t);
    var sent := c.lines[t][..s.sent[t]];
    YieldedOfTag(s.taken, t);
    YieldItems(t, sent);
    YieldAppend(Items(t, sent), End(t), t);
    assert OfTag(s.taken, t) == if t in s.ended then Items(t, sent) + [End(t)] else Items(t, sent);
    if t in s.ended {
      assert OfTag(s.taken, t)[|sent|] == End(t);
      OfTagMember(s.taken, End(t));
    }
  }

  /** A timeout is raised only past the deadline, with every line put so far already yielded. */
  lemma TimeoutLosesNothingQueued(c: Child, actions: seq<Action>)
    requires Legal(c, actions) && Enabled(c, After(c, actions), GiveUp)
    ensures var s := After(c, actions);
      && s.clock >= c.deadline
      && (forall t :: t in c.lines ==> t in s.sent && s.sent[t] <= |c.lines[t]|)
      && (forall t :: t in c.lines ==>
          LinesOf(Yielded(s.taken), t) == c.lines[t][..s.sent[t]])
      && (exists t :: t in c.lines && t !in s.ended)
  {
    InvAlways(c, actions);
    var s := After(c, actions);
    forall t | t in c.lines
      ensures t in s.sent && s.sent[t] <= |c.lines[t]|
      ensures LinesOf(Yielded(s.taken), t) == c.lines[t][..s.sent[t]]
    {
      EmptyQueueYieldsAll(c, s, t);
    }
    assert c.lines.Keys - EndsIn(s.taken) != {};
    var t :| t in c.lines.Keys - EndsIn(s.taken);
    EmptyQueueYieldsAll(c, s, t);
  }

  /** The deadline is no hard bound: a line already queued is still yielded any time after it. */
  lemma LateLineIsStillYielded(deadline: nat, late: nat, text: string) returns (c: Child, actions: seq<Action>)
    ensures c == Child(map[Stdout := [text]], deadline)
    ensures Legal(c, actions) && After(c, actions).clock == deadline + late
    ensures Enabled(c, After(c, actions), Get) && !Enabled(c, After(c, actions), GiveUp)
  {
    c := Child(map[Stdout := [text]], deadline);
    assert c.lines.Keys == {Stdout};
    actions := [Put(Stdout)];
    assert actions[..0] == [];
    var n := 0;
    while n < deadline + late
      invariant n <= deadline + late
      invariant Legal(c, actions)
      invariant After(c, actions) == State(map[Stdout := 1], {}, [Line(Stdout, text)], [], 1, n, Streaming)
    {
      assert (actions + [Tick])[..|actions|] == actions;
      actions, n := actions + [Tick], n + 1;
    }
  }

  // ------------------------------------------------------------ the deadline

  /** How often the consumer takes an item. */
  function Gets(actions: seq<Action>): nat {
    if actions == [] then 0 else Gets(actions[..|actions| - 1]) + if actions[|actions| - 1].Get? then 1 else 0
  }

  /** How often a reader puts a line or its end mark. */
  function Fed(actions: seq<Action>): nat {
    if actions == [] then 0
    else Fed(actions[..|actions| - 1]) + if actions[|actions| - 1].Put? || actions[|actions| - 1].Close? then 1 else 0
  }

  /** One action keeps the balance of the queue, and no clock runs back. */
  lemma QueueStep(c: Child, s: State, a: Action)
    requires Enabled(c, s, a)
    ensures |s.queue| + Fed([a]) == Gets([a]) + |Step(c, s, a).queue|
    ensures s.clock <= Step(c, s, a).clock
  {
    assert [a][..0] == [];
  }

  /** Nothing is lost in the queue: what was queued and put is what was taken and is queued. */
  lemma {:induction false} QueueBalance(c: Child, actions: seq<Action>, more: seq<Action>)
    requires Legal(c, actions) && Legal(c, actions + more)
    ensures |After(c, actions).queue| + Fed(more) == Gets(more) + |After(c, actions + more).queue|
    ensures After(c, actions).clock <= After(c, actions + more).clock
    decreases |more|
  {
    if more == [] {
      assert actions + more == actions;
    } else {
      var init := more[..|more| - 1];
      var last := more[|more| - 1];
      assert (actions + more)[..|actions + more| - 1] == actions + init;
      assert After(c, actions + more) == Step(c, After(c, actions + init), last);
      QueueBalance(c, actions, init);
      QueueStep(c, After(c, actions + init), last);
      assert [last][..0] == [];
    }
  }

  /**
   * In every reachable state a reader that has not ended can do exactly one
   * thing, whatever the clock and the consumer: put its next line, or its end
   * mark if there is none.
   */
  lemma {:induction false} ReaderChoice(c: Child, actions: seq<Action>, t: Tag)
    requires Legal(c, actions) && t in c.lines
    ensures var s := After(c, actions);
      && t in s.sent && s.sent[t] <= |c.lines[t]|
      && (Enabled(c, s, Put(t)) <==> t !in s.ended && s.sent[t] < |c.lines[t]|)
      && (Enabled(c, s, Close(t)) <==> t !in s.ended && s.sent[t] == |c.lines[t]|)
      && (Enabled(c, s, Put(t)) ==> Step(c, s, Put(t)).queue == s.queue + [Line(t, c.lines[t][s.sent[t]])])
      && (Enabled(c, s, Close(t)) ==> Step(c, s, Close(t)).queue == s.queue + [End(t)])
  {
    SentSoFar(c, actions, t);
  }

  lemma {:induction false} SentSoFar(c: Child, actions: seq<Action>, t: Tag)
    requires Legal(c, actions) && t in c.lines
    ensures var s := After(c, actions); t in s.sent && s.sent[t] <= |c.lines[t]|
  {
    InvAlways(c, actions);
    assert Exact(c, After(c, actions), After(c, actions).taken + After(c, actions).queue, t);
  }

  /**
   * In every reachable state one consumer action is enabled at most, and the deadline
   * matters only to an empty queue.
   */
  lemma ConsumerChoice(c: Child, s: State)
    requires s.phase == Streaming
    ensures Enabled(c, s, Get) <==> s.open > 0 && s.queue != []
    ensures Enabled(c, s, Finish) <==> s.open == 0
    ensures Enabled(c, s, GiveUp) <==> s.open > 0 && s.queue == [] && s.clock >= c.deadline
  {
  }

  /**
   * When the deadline does stop the stream. From any reachable state past the
   * deadline, in any continuation: the consumer has taken at most what was
   * queued and what the readers have put since, and it can end the stream, by
   * a timeout or because all streams are done, exactly if it has taken all of
   * that or no stream is open. So it overruns only as long as readers put.
   */
  lemma DeadlineStopsUnlessFed(c: Child, actions: seq<Action>, more: seq<Action>)
    requires Legal(c, actions) && After(c, actions).clock >= c.deadline
    requires Legal(c, actions + more) && After(c, actions + more).phase == Streaming
    ensures var s, t := After(c, actions), After(c, actions + more);
      && Gets(more) <= |s.queue| + Fed(more)
      && (Enabled(c, t, GiveUp) || Enabled(c, t, Finish) <==> t.open == 0 || Gets(more) == |s.queue| + Fed(more))
      && (Enabled(c, t, Get) <==> t.open > 0 && Gets(more) < |s.queue| + Fed(more))
  {
    QueueBalance(c, actions, more);
    ConsumerChoice(c, After(c, actions + more));
  }

  /** Any number of reads from the queue: the consumer alone, without the readers. */
  function Reads(n: nat): (r: seq<Action>)
    ensures |r| == n
  {
    if n == 0 then [] else Reads(n - 1) + [Get]
  }

  /** The consumer has read `n` items since, and the stream goes on past the deadline. */
  ghost predicate ReadSoFar(c: Child, actions: seq<Action>, n: nat)
    requires Legal(c, actions)
  {
    && n <= |After(c, actions).queue| && Legal(c, actions + Reads(n))
    && var t := After(c, actions + Reads(n));
       t.phase == Streaming && t.clock >= c.deadline && |t.queue| == |After(c, actions).queue| - n
  }

  lemma GetOnce(c: Child, taken: seq<Action>, next: seq<Action>)
    requires Legal(c, taken) && next == taken + [Get]
    requires After(c, taken).phase == Streaming && After(c, taken).open > 0 && After(c, taken).queue != []
    ensures Legal(c, next) && After(c, next) == Step(c, After(c, taken), Get)
  {
    assert next[..|next| - 1] == taken && Enabled(c, After(c, taken), Get);
  }

  lemma ReadOnce(c: Child, actions: seq<Action>, n: nat)
    requires Legal(c, actions) && ReadSoFar(c, actions, n)
    requires n < |After(c, actions).queue| && After(c, actions + Reads(n)).open > 0
    ensures ReadSoFar(c, actions, n + 1)
  {
    var taken, next := actions + Reads(n), actions + Reads(n + 1);
    assert next == taken + [Get];
    var t := After(c, taken);
    GetOnce(c, taken, next);
    assert |Step(c, t, Get).queue| == |t.queue| - 1;
  }

  /** After `n` reads the consumer can end the stream. */
  ghost predicate EndsAfterReads(c: Child, actions: seq<Action>, n: nat)
    requires Legal(c, actions)
  {
    && ReadSoFar(c, actions, n)
    && var t := After(c, actions + Reads(n)); (Enabled(c, t, GiveUp) || Enabled(c, t, Finish))
  }

  lemma {:induction false} DrainsFrom(c: Child, actions: seq<Action>, n: nat)
    requires Legal(c, actions) && ReadSoFar(c, actions, n)
    ensures exists m: nat :: EndsAfterReads(c, actions, m)
    decreases |After(c, actions).queue| - n
  {
    var t := After(c, actions + Reads(n));
    ConsumerChoice(c, t);
    if n < |After(c, actions).queue| && t.open > 0 {
      ReadOnce(c, actions, n);
      DrainsFrom(c, actions, n + 1);
    } else {
      assert EndsAfterReads(c, actions, n);
    }
  }

  /**
   * Left alone past the deadline, the consumer can end the stream after at
   * most as many reads as items are queued.
   */
  lemma DrainsPastDeadline(c: Child, actions: seq<Action>)
    requires Legal(c, actions) && After(c, actions).phase == Streaming && After(c, actions).clock >= c.deadline
    ensures exists n: nat :: n <= |After(c, actions).queue| && EndsAfterReads(c, actions, n)
  {
    assert actions + Reads(0) == actions;
    assert ReadSoFar(c, actions, 0);
    DrainsFrom(c, actions, 0);
    var n: nat :| EndsAfterReads(c, actions, n);
  }

  // ------------------------------------------------------------ stream_command

  function TrimEnd(line: string): string {
    if line != "" && line[|line| - 1] in "\r\n" then TrimEnd(line[..|line| - 1]) else line
  }

  function TrimEnds(lines: seq<string>): (r: seq<string>)
    ensures |r| == |lines| && forall i :: 0 <= i < |r| ==> r[i] == TrimEnd(lines[i])
  {
    seq(|lines|, i requires 0 <= i < |lines| => TrimEnd(lines[i]))
  }

  function Join(lines: seq<string>): string {
    if lines == [] then "" else if |lines| == 1 then lines[0] else lines[0] + "\n" + Join(lines[1..])
  }

  /** `text` cut at its newlines. */
  function Split(text: string): seq<string> {
    var i := IndexOf(text, '\n');
    if i == |text| then [text] else [text[..i]] + Split(text[i + 1..])
  }

  /** Cutting what was joined gives the lines back. */
  lemma {:induction false} SplitOfJoin(lines: seq<string>)
    requires lines != [] && forall line :: line in lines ==> '\n' !in line
    ensures Split(Join(lines)) == lines
  {
    var first, text := lines[0], Join(lines);
    if |lines| == 1 {
      assert first in lines && IndexOf(first, '\n') == |first|;
    } else {
      SplitOfJoin(lines[1..]);
      assert text == first + ['\n'] + Join(lines[1..]);
      IndexOfSplit(first, '\n', Join(lines[1..]));
      assert text[..|first|] == first && text[|first| + 1..] == Join(lines[1..]);
    }
  }

  lemma SplitOnce(head: string, tail: string)
    requires '\n' !in head
    ensures Split(head + "\n" + tail) == [head] + Split(tail)
  {
    var text := head + ['\n'] + tail;
    IndexOfSplit(head, '\n', tail);
    assert text[..|head|] == head && text[|head| + 1..] == tail;
  }

  lemma JoinOnce(head: string, rest: seq<string>)
    requires rest != []
    ensures Join([head] + rest) == head + "\n" + Join(rest)
  {
    assert ([head] + rest)[1..] == rest;
  }

  /** Joining what was cut gives the text back. */
  lemma {:induction false} JoinOfSplit(text: string)
    ensures Split(text) != [] && Join(Split(text)) == text
    decreases |text|
  {
    var i := IndexOf(text, '\n');
    if i < |text| {
      var head, tail := text[..i], text[i + 1..];
      JoinOfSplit(tail);
      SplitOnce(head, tail);
      JoinOnce(head, Split(tail));
      assert text == head + "\n" + tail;
    }
  }

  predicate IsLineEnd(c: char) { c == '\r' || c == '\n' }

  /** `piece` is `line` less exactly the line end characters behind it. */
  ghost predicate LessLineEnd(piece: string, line: string) {
    && piece <= line
    && (forall i :: |piece| <= i < |line| ==> IsLineEnd(line[i]))
    && (piece != "" ==> !IsLineEnd(piece[|piece| - 1]))
  }

  lemma {:induction false} TrimEndExactly(line: string)
    ensures LessLineEnd(TrimEnd(line), line)
  {
    if line != "" && line[|line| - 1] in "\r\n" {
      TrimEndExactly(line[..|line| - 1]);
    }
  }

  /** After a newline in `line` come only line end characters. */
  ghost predicate OneLine(line: string) {
    forall i, j :: 0 <= i < j < |line| && line[i] == '\n' ==> IsLineEnd(line[j])
  }

  /** `text` is empty without lines; otherwise its pieces are the lines, less their line ends. */
  ghost predicate Captures(text: string, lines: seq<string>) {
    && (lines == [] ==> text == "")
    && (lines != [] && (forall line :: line in lines ==> OneLine(line)) ==>
          && |Split(text)| == |lines|
          && forall i :: 0 <= i < |lines| ==> LessLineEnd(Split(text)[i], lines[i]))
  }

  lemma JoinedIsCaptured(lines: seq<string>)
    ensures Captures(Join(TrimEnds(lines)), lines)
  {
    var pieces := TrimEnds(lines);
    if lines != [] && forall line :: line in lines ==> OneLine(line) {
      forall i | 0 <= i < |lines|
        ensures LessLineEnd(pieces[i], lines[i]) && '\n' !in pieces[i]
      {
        TrimEndExactly(lines[i]);
        assert OneLine(lines[i]);
      }
      SplitOfJoin(pieces);
    }
  }

  /** What the caller of `stream_command` sees live: the non-blank lines, trimmed. */
  function Live(yielded: seq<(Tag, string)>): seq<string> {
    if yielded == [] then [] else
      Live(yielded[..|yielded| - 1]) +
      (var s := Strip(yielded[|yielded| - 1].1); if s == "" then [] else [s])
  }

  /** Live is each line that is not blank, trimmed, in order. */
  lemma LiveExactly(yielded: seq<(Tag, string)>, t: Tag, line: string)
    ensures Live([]) == []
    ensures Strip(line) == "" ==> Live(yielded + [(t, line)]) == Live(yielded)
    ensures Strip(line) != "" ==> Live(yielded + [(t, line)]) == Live(yielded) + [Strip(line)]
  {
    assert (yielded + [(t, line)])[..|yielded|] == yielded;
    assert Live(yielded) + [] == Live(yielded);
  }

  /** Separate the streamed lines again while passing them on. */
  method StreamCommand(yielded: seq<(Tag, string)>) returns (stdout: string, stderr: string, live: seq<string>)
    ensures stdout == Join(TrimEnds(LinesOf(yielded, Stdout)))
    ensures stderr == Join(TrimEnds(LinesOf(yielded, Stderr)))
    ensures live == Live(yielded)
    ensures Captures(stdout, LinesOf(yielded, Stdout)) && Captures(stderr, LinesOf(yielded, Stderr))
  {
    var output, errors := [], [];
    live := [];
    for i := 0 to |yielded|
      invariant output == TrimEnds(LinesOf(yielded[..i], Stdout))
      invariant errors == TrimEnds(LinesOf(yielded[..i], Stderr))
      invariant live == Live(yielded[..i])
    {
      assert yielded[..i + 1][..i] == yielded[..i];
      var (tag, line) := yielded[i];
      if tag == Stdout {
        output := output + [TrimEnd(line)];
      } else {
        errors := errors + [TrimEnd(line)];
      }
      var stripped := Strip(line);
      if stripped != "" {
        live := live + [stripped];
      }
    }
    assert yielded[..|yielded|] == yielded;
    stdout, stderr := Join(output), Join(errors);
    JoinedIsCaptured(LinesOf(yielded, Stdout));
    JoinedIsCaptured(LinesOf(yielded, Stderr));
  }

  /** The captured stdout (stderr) is a function of that stream alone, whatever the other does. */
  lemma CapturedTextIsPerStream(c: Child, actions: seq<Action>, c': Child, actions': seq<Action>, t: Tag)
    requires Legal(c, actions) && After(c, actions).phase == Drained
    requires Legal(c', actions') && After(c', actions').phase == Drained
    requires t in c.lines && t in c'.lines && c.lines[t] == c'.lines[t]
    ensures LinesOf(Yielded(After(c, actions).taken), t) == LinesOf(Yielded(After(c', actions').taken), t)
    ensures Join(TrimEnds(LinesOf(Yielded(After(c, actions).taken), t))) == Join(TrimEnds(c.lines[t]))
    ensures Captures(Join(TrimEnds(LinesOf(Yielded(After(c, actions).taken), t))), c.lines[t])
  {
    JoinedIsCaptured(c.lines[t]);
    NormalEndIsComplete(c, actions);
    NormalEndIsComplete(c', actions');
  }

  // ------------------------------------------------------- pip with one retry

  /** One pip attempt: whether it ran to an exit code, and what its output looks like. */
  datatype Attempt = Attempt(launched: bool, exitCode: int, corruptCache: bool)

  /**
   * Run pip, retrying without cache after a corruption-class failure. `attempt`
   * gives the result of the k-th try; `None` stands for the fallback result of
   * a call that allows no attempt.
   */
  method StreamPipWithRecovery(attempt: nat -> Attempt, maxAttempts: int)
    returns (result: Option<Attempt>, tries: nat, purges: nat)
    ensures result.None? <==> maxAttempts < 1
    ensures result.Some? ==> 1 <= tries <= maxAttempts && result.value == attempt(tries)
    ensures result.Some? ==> forall k :: 1 <= k < tries ==>
      attempt(k).launched && attempt(k).exitCode != 0 && attempt(k).corruptCache
    ensures result.Some? && tries < maxAttempts ==>
      !attempt(tries).launched || attempt(tries).exitCode == 0 || !attempt(tries).corruptCache
    ensures result.Some? ==> purges == tries - 1
  {
    tries, purges := 0, 0;
    while tries < maxAttempts
      invariant tries == purges
      invariant forall k :: 1 <= k <= tries ==>
        attempt(k).launched && attempt(k).exitCode != 0 && attempt(k).corruptCache
      invariant tries > 0 ==> tries < maxAttempts
    {
      tries := tries + 1;
      var completed := attempt(tries);
      if !completed.launched || completed.exitCode == 0 {
        return Some(completed), tries, purges;
      }
      if tries < maxAttempts && completed.corruptCache {
        purges := purges + 1;
        continue;
      }
      return Some(completed), tries, purges;
    }
    return None, tries, purges;
  }
}
