/** The relay's upstream path: duplicate lines are dropped, the rest are queued and sent in batches. A batch is
    taken under the lock and posted outside it, so lines may be added in between. */
module SendQueue {
  import opened Wrappers
  import opened Sequences
  import opened PathIds

  // ---------------------------------------------------------------- queue

  /** A batch that was posted, and whether the post went through. */
  datatype Post = Post(lines: seq<string>, ok: bool)

  /** `inFlight`: taken and not yet answered; `posts`: answered, oldest first. */
  datatype Queue = Queue(buf: seq<string>, inFlight: Option<seq<string>>, posts: seq<Post>, sent: nat)

  datatype Step = Add(line: string) | Take | Answer(ok: bool)

  /** The batch size as the unsigned number it is compared as: a negative one is past any buffer. */
  function Limit(batchSize: int, buffered: nat): nat {
    if 0 <= batchSize <= buffered then batchSize else buffered
  }

  function Next(q: Queue, s: Step, batchSize: int): Queue {
    match s
    case Add(line) => if |line| < 10 then q else q.(buf := q.buf + [line])
    case Take =>
      if q.inFlight.Some? || q.buf == [] then q
      else
        var n := Limit(batchSize, |q.buf|);
        q.(buf := q.buf[n..], inFlight := Some(q.buf[..n]))
    case Answer(ok) =>
      if q.inFlight == None then q
      else q.(inFlight := None, posts := q.posts + [Post(q.inFlight.value, ok)],
              sent := q.sent + if ok then |q.inFlight.value| else 0)
  }

  const Empty := Queue([], None, [], 0)

  // ---------------------------------------------------------------- the sending thread

  /** Where the thread stands: before the loop's test, asleep, at the loop's flush with nothing taken yet, posting
      what it took; then the same for the flush after the loop. */
  datatype Worker = Testing | Asleep | Flushing | Posting | LastFlush | LastPost | Done

  datatype Sender = Sender(q: Queue, worker: Worker, running: bool)

  /** `Move` is the thread's next step other than the answer to its post. */
  datatype Act = Accept(line: string) | Stop | Move | Reply(ok: bool)

  function Turn(m: Sender, a: Act, batchSize: int): Sender {
    match a
    case Accept(line) => m.(q := Next(m.q, Add(line), batchSize))
    case Stop => m.(running := false)
    case Move =>
      (match m.worker
       case Testing => m.(worker := if m.running then Asleep else LastFlush)
       case Asleep => m.(worker := Flushing)
       case Flushing =>
         var q := Next(m.q, Take, batchSize);
         m.(q := q, worker := if q.inFlight.Some? then Posting else Testing)
       case LastFlush =>
         var q := Next(m.q, Take, batchSize);
         m.(q := q, worker := if q.inFlight.Some? then LastPost else Done)
       case _ => m)
    case Reply(ok) =>
      if m.worker == Posting then m.(q := Next(m.q, Answer(ok), batchSize), worker := Testing)
      else if m.worker == LastPost then m.(q := Next(m.q, Answer(ok), batchSize), worker := Done)
      else m
  }

  const Started := Sender(Empty, Testing, true)

  class RawSender {
    const batchSize: int
    var buf: seq<string>
    var sent: nat
    var running: bool
    var worker: Worker
    var taken: Option<seq<string>>
    ghost var posts: seq<Post>

    ghost function State(): Sender
      reads this
    {
      Sender(Queue(buf, taken, posts, sent), worker, running)
    }

    constructor (batchSize: int)
      ensures State() == Started && this.batchSize == batchSize
    {
      this.batchSize := batchSize;
      buf, sent, taken, posts := [], 0, None, [];
      running, worker := true, Testing;
    }

    method AddLine(line: string)
      modifies this
      ensures State() == Turn(old(State()), Accept(line), batchSize)
    {
      if |line| < 10 { return; }
      buf := buf + [line];
    }

    method StopSending()
      modifies this
      ensures State() == Turn(old(State()), Stop, batchSize)
    {
      running := false;
    }

    /** The locked half of flush. */
    method TakeBatch()
      modifies this`buf, this`taken
      ensures State().q == Next(old(State()).q, Take, batchSize)
    {
      if taken.Some? || buf == [] { return; }
      var n := if 0 <= batchSize <= |buf| then batchSize else |buf|;
      taken := Some(buf[..n]);
      buf := buf[n..];
    }

    method MoveOn()
      modifies this
      ensures State() == Turn(old(State()), Move, batchSize)
    {
      match worker
      case Testing => worker := if running then Asleep else LastFlush;
      case Asleep => worker := Flushing;
      case Flushing =>
        TakeBatch();
        worker := if taken.Some? then Posting else Testing;
      case LastFlush =>
        TakeBatch();
        worker := if taken.Some? then LastPost else Done;
      case _ =>
    }

    /** The other half of flush: the answer to the post. */
    method FinishPost(ok: bool)
      modifies this
      ensures State() == Turn(old(State()), Reply(ok), batchSize)
    {
      if worker != Posting && worker != LastPost { return; }
      worker := if worker == Posting then Testing else Done;
      if taken == None { return; }
      posts := posts + [Post(taken.value, ok)];
      if ok { sent := sent + |taken.value|; }
      taken := None;
    }
  }

  function Acts(m: Sender, acts: seq<Act>, batchSize: int): Sender
    decreases |acts|
  {
    if acts == [] then m else Acts(Turn(m, acts[0], batchSize), acts[1..], batchSize)
  }

  // ---------------------------------------------------------------- order

  function Run(q: Queue, steps: seq<Step>, batchSize: int): Queue {
    if steps == [] then q else Next(Run(q, steps[..|steps| - 1], batchSize), steps[|steps| - 1], batchSize)
  }

  /** The lines that were long enough to be queued. */
  function Queued(steps: seq<Step>): seq<string> {
    if steps == [] then [] else
      var n := |steps| - 1;
      if steps[n].Add? && |steps[n].line| >= 10 then Queued(steps[..n]) + [steps[n].line] else Queued(steps[..n])
  }

  function LinesOf(posts: seq<Post>): seq<string> {
    if posts == [] then [] else LinesOf(posts[..|posts| - 1]) + posts[|posts| - 1].lines
  }

  function Delivered(posts: seq<Post>): nat {
    if posts == [] then 0 else
      var n := |posts| - 1;
      Delivered(posts[..n]) + if posts[n].ok then |posts[n].lines| else 0
  }

  function InFlight(q: Queue): seq<string> { if q.inFlight == None then [] else q.inFlight.value }

  predicate Bounded(lines: seq<string>, batchSize: int) { batchSize >= 0 ==> |lines| <= batchSize }

  /** Over every interleaving of adding, taking and answering: each queued line is in exactly one place, in the
      order it was queued: in an answered batch, in flight, or waiting. Batches respect the batch size, and
      `sent` counts exactly the lines of batches that went through. */
  lemma {:induction false} NothingLostOrDoubled(steps: seq<Step>, batchSize: int)
    ensures InOrder(Run(Empty, steps, batchSize), batchSize, Queued(steps))
  {
    if steps != [] {
      var n := |steps| - 1;
      NothingLostOrDoubled(steps[..n], batchSize);
      KeepsOrder(Run(Empty, steps[..n], batchSize), steps[n], batchSize, Queued(steps[..n]));
    }
  }

  ghost predicate InOrder(q: Queue, batchSize: int, all: seq<string>) {
    && all == LinesOf(q.posts) + InFlight(q) + q.buf
    && q.sent == Delivered(q.posts)
    && Bounded(InFlight(q), batchSize)
    && forall p :: p in q.posts ==> Bounded(p.lines, batchSize)
  }

  lemma KeepsOrder(q: Queue, s: Step, batchSize: int, all: seq<string>)
    requires InOrder(q, batchSize, all)
    ensures InOrder(Next(q, s, batchSize), batchSize, if s.Add? && |s.line| >= 10 then all + [s.line] else all)
  {
    match s
    case Add(line) => Assoc(LinesOf(q.posts) + InFlight(q), q.buf, [line]);
    case Take => KeepsTake(q, batchSize, all);
    case Answer(ok) => KeepsAnswer(q, batchSize, all, ok);
  }

  lemma KeepsTake(q: Queue, batchSize: int, all: seq<string>)
    requires InOrder(q, batchSize, all)
    ensures InOrder(Next(q, Take, batchSize), batchSize, all)
  {
    if q.inFlight == None && q.buf != [] {
      var k := Limit(batchSize, |q.buf|);
      assert q.buf == q.buf[..k] + q.buf[k..];
      assert LinesOf(q.posts) + [] == LinesOf(q.posts);
      Assoc(LinesOf(q.posts), q.buf[..k], q.buf[k..]);
    }
  }

  lemma KeepsAnswer(q: Queue, batchSize: int, all: seq<string>, ok: bool)
    requires InOrder(q, batchSize, all)
    ensures InOrder(Next(q, Answer(ok), batchSize), batchSize, all)
  {
    if q.inFlight.Some? {
      var p := Post(q.inFlight.value, ok);
      assert (q.posts + [p])[..|q.posts|] == q.posts;
      assert LinesOf(q.posts + [p]) == LinesOf(q.posts) + p.lines;
      assert LinesOf(q.posts) + p.lines + [] == LinesOf(q.posts) + p.lines;
    }
  }

  // ---------------------------------------------------------------- stopping

  predicate Accepts(a: Act) { a.Accept? && |a.line| >= 10 }

  function Accepted(acts: seq<Act>): seq<string> {
    if acts == [] then [] else First(acts[0]) + Accepted(acts[1..])
  }

  function First(a: Act): seq<string> { if Accepts(a) then [a.line] else [] }

  /** How many more batches a thread that is told to stop takes. */
  function TakesLeft(w: Worker): nat {
    match w
    case Asleep => 2
    case Flushing => 2
    case Testing => 1
    case Posting => 1
    case LastFlush => 1
    case LastPost => 0
    case Done => 0
  }

  /** The lines accepted before the first, between each two, and after the last of the batches taken in a run. */
  function Gaps(m: Sender, acts: seq<Act>, batchSize: int): (g: seq<nat>)
    ensures g != []
    decreases |acts|
  {
    if acts == [] then [0] else
      var rest := Gaps(Turn(m, acts[0], batchSize), acts[1..], batchSize);
      if Accepts(acts[0]) then [rest[0] + 1] + rest[1..]
      else if acts[0] == Move && (m.worker == Flushing || m.worker == LastFlush) then [0] + rest
      else rest
  }

  /** What a batch leaves of `n` waiting lines. */
  function Over(n: nat, batchSize: int): nat { if 0 <= batchSize <= n then n - batchSize else 0 }

  /** What is left of `n` waiting lines when lines keep coming in between batches. */
  function Left(n: nat, gaps: seq<nat>, batchSize: int): nat
    requires gaps != []
    decreases |gaps|
  {
    if |gaps| == 1 then n + gaps[0] else Left(Over(n + gaps[0], batchSize), gaps[1..], batchSize)
  }

  /** The batch in flight belongs to a thread that is posting, and only a stopped thread leaves its loop. */
  predicate Sound(m: Sender) {
    && (m.q.inFlight.Some? <==> m.worker == Posting || m.worker == LastPost)
    && (m.running ==> m.worker != LastFlush && m.worker != LastPost && m.worker != Done)
  }

  lemma TurnKeepsSound(m: Sender, a: Act, batchSize: int)
    requires Sound(m)
    ensures Sound(Turn(m, a, batchSize))
  {
  }

  lemma {:induction false} ActsKeepSound(m: Sender, acts: seq<Act>, batchSize: int)
    requires Sound(m)
    ensures Sound(Acts(m, acts, batchSize))
    decreases |acts|
  {
    if acts != [] {
      TurnKeepsSound(m, acts[0], batchSize);
      ActsKeepSound(Turn(m, acts[0], batchSize), acts[1..], batchSize);
    }
  }

  lemma TurnBacklog(m: Sender, a: Act, batchSize: int)
    requires Sound(m)
    ensures var waiting := |Turn(m, a, batchSize).q.buf|;
            waiting == if Accepts(a) then |m.q.buf| + 1
                       else if a == Move && (m.worker == Flushing || m.worker == LastFlush) then Over(|m.q.buf|, batchSize)
                       else |m.q.buf|
  {
  }

  /** The lengths of what waits follow from the gaps, in every run of the thread. */
  lemma {:induction false} Backlog(m: Sender, acts: seq<Act>, batchSize: int)
    requires Sound(m)
    ensures |Acts(m, acts, batchSize).q.buf| == Left(|m.q.buf|, Gaps(m, acts, batchSize), batchSize)
    decreases |acts|
  {
    if acts != [] {
      var m', g := Turn(m, acts[0], batchSize), Gaps(Turn(m, acts[0], batchSize), acts[1..], batchSize);
      TurnKeepsSound(m, acts[0], batchSize);
      TurnBacklog(m, acts[0], batchSize);
      Backlog(m', acts[1..], batchSize);
      if Accepts(acts[0]) { LeftShift(|m.q.buf|, g, batchSize); }
    }
  }

  lemma LeftShift(n: nat, g: seq<nat>, batchSize: int)
    requires g != []
    ensures Left(n + 1, g, batchSize) == Left(n, [g[0] + 1] + g[1..], batchSize)
  {
    assert ([g[0] + 1] + g[1..])[1..] == g[1..];
  }

  /** A stopped thread that is done has taken as many batches as it had left to take. */
  lemma {:induction false} StoppedTakes(m: Sender, acts: seq<Act>, batchSize: int)
    requires Sound(m) && !m.running && Acts(m, acts, batchSize).worker == Done
    ensures |Gaps(m, acts, batchSize)| == TakesLeft(m.worker) + 1
    decreases |acts|
  {
    if acts != [] {
      TurnKeepsSound(m, acts[0], batchSize);
      StoppedTakes(Turn(m, acts[0], batchSize), acts[1..], batchSize);
    }
  }

  /** What a run leaves waiting is the end of what waited before and was accepted since. */
  predicate IsEnd(left: seq<string>, all: seq<string>) { |left| <= |all| && all[|all| - |left|..] == left }

  lemma SuffixIsEnd(all: seq<string>, n: nat)
    requires n <= |all|
    ensures IsEnd(all[n..], all) && IsEnd(all, all)
  {
  }

  /** Whatever a turn does, it only appends to what waits or cuts a batch off its front. */
  lemma TurnBuffer(m: Sender, a: Act, batchSize: int) returns (n: nat)
    ensures n <= |m.q.buf| && Turn(m, a, batchSize).q.buf == if Accepts(a) then m.q.buf + First(a) else m.q.buf[n..]
  {
    n := if a == Move && (m.worker == Flushing || m.worker == LastFlush) && m.q.inFlight == None && m.q.buf != []
         then Limit(batchSize, |m.q.buf|) else 0;
  }

  lemma TurnLeavesEnd(m: Sender, a: Act, batchSize: int)
    ensures IsEnd(Turn(m, a, batchSize).q.buf, m.q.buf + First(a))
  {
    var n := TurnBuffer(m, a, batchSize);
    if Accepts(a) {
      SuffixIsEnd(m.q.buf + First(a), 0);
    } else {
      EmptySides(m.q.buf);
      SuffixIsEnd(m.q.buf, n);
    }
  }

  lemma EndOfEnd(left: seq<string>, mid: seq<string>, more: seq<string>, all: seq<string>)
    requires IsEnd(left, mid + more) && IsEnd(mid, all)
    ensures IsEnd(left, all + more)
  {
    var k := |all| - |mid|;
    assert (all + more)[k..] == mid + more;
    assert (all + more)[k..][|mid + more| - |left|..] == (all + more)[|all + more| - |left|..];
  }

  lemma {:induction false} LeavesEnd(m: Sender, acts: seq<Act>, batchSize: int)
    ensures IsEnd(Acts(m, acts, batchSize).q.buf, m.q.buf + Accepted(acts))
    decreases |acts|
  {
    if acts == [] {
      EmptySides(m.q.buf);
    } else {
      var m', first, rest := Turn(m, acts[0], batchSize), First(acts[0]), Accepted(acts[1..]);
      TurnLeavesEnd(m, acts[0], batchSize);
      LeavesEnd(m', acts[1..], batchSize);
      EndOfEnd(Acts(m', acts[1..], batchSize).q.buf, m'.q.buf, rest, m.q.buf + first);
      Assoc(m.q.buf, first, rest);
    }
  }

  function Max(x: int, y: int): int { if x >= y then x else y }

  /** What stopping loses. After any run from the start the thread is told to stop, and lines may still come in.
      Two batches are taken from then on if the thread was asleep or about to flush, one otherwise; the lines left
      when it is done are the last of all, and this is how many. */
  lemma StopLoses(before: seq<Act>, after: seq<Act>, batchSize: int) returns (g: seq<nat>)
    requires Acts(Started, before, batchSize).running
    requires Acts(Turn(Acts(Started, before, batchSize), Stop, batchSize), after, batchSize).worker == Done
    ensures var m := Acts(Started, before, batchSize);
            var stopped := Turn(m, Stop, batchSize);
            var left, n := Acts(stopped, after, batchSize).q.buf, |m.q.buf|;
            && g == Gaps(stopped, after, batchSize)
            && IsEnd(left, m.q.buf + Accepted(after))
            && |g| == (if m.worker == Asleep || m.worker == Flushing then 3 else 2)
            && |left| == if batchSize < 0 then g[|g| - 1]
                         else if |g| == 2 then Max(g[1], n + g[0] + g[1] - batchSize)
                         else Max(g[2], Max(g[1] + g[2] - batchSize, n + g[0] + g[1] + g[2] - 2 * batchSize))
  {
    var m := Acts(Started, before, batchSize);
    ActsKeepSound(Started, before, batchSize);
    var stopped := Turn(m, Stop, batchSize);
    g := Gaps(stopped, after, batchSize);
    LeavesEnd(stopped, after, batchSize);
    Backlog(stopped, after, batchSize);
    StoppedTakes(stopped, after, batchSize);
    LeftOfThree(|m.q.buf|, g, batchSize);
  }

  lemma LeftOfThree(n: nat, g: seq<nat>, batchSize: int)
    requires 2 <= |g| <= 3
    ensures Left(n, g, batchSize) ==
            if batchSize < 0 then g[|g| - 1]
            else if |g| == 2 then Max(g[1], n + g[0] + g[1] - batchSize)
            else Max(g[2], Max(g[1] + g[2] - batchSize, n + g[0] + g[1] + g[2] - 2 * batchSize))
  {
    var rest, x := g[1..], Over(n + g[0], batchSize);
    assert Left(n, g, batchSize) == Left(x, rest, batchSize);
    if |g| == 3 {
      assert rest[1..] == [g[2]];
      assert Left(x, rest, batchSize) == Left(Over(x + g[1], batchSize), [g[2]], batchSize);
    }
  }

  /** If nothing is added any more, stopping loses nothing exactly when what waits fits in the batches that are
      still taken. */
  lemma StopLosesNothing(before: seq<Act>, after: seq<Act>, batchSize: int)
    requires Acts(Started, before, batchSize).running && Accepted(after) == []
    requires Acts(Turn(Acts(Started, before, batchSize), Stop, batchSize), after, batchSize).worker == Done
    ensures var m := Acts(Started, before, batchSize);
            var takes := if m.worker == Asleep || m.worker == Flushing then 2 else 1;
            Acts(Turn(m, Stop, batchSize), after, batchSize).q.buf == [] <==>
            batchSize < 0 || |m.q.buf| <= takes * batchSize
  {
    var g := StopLoses(before, after, batchSize);
    NoGaps(Turn(Acts(Started, before, batchSize), Stop, batchSize), after, batchSize);
    assert g[0] in g && g[1] in g && g[|g| - 1] in g;
  }

  lemma {:induction false} NoGaps(m: Sender, acts: seq<Act>, batchSize: int)
    requires Accepted(acts) == []
    ensures forall n :: n in Gaps(m, acts, batchSize) ==> n == 0
    decreases |acts|
  {
    if acts != [] {
      assert First(acts[0]) == [];
      NoGaps(Turn(m, acts[0], batchSize), acts[1..], batchSize);
    }
  }

  lemma {:induction false} KeepsAllInOrder(m: Sender, acts: seq<Act>, batchSize: int, all: seq<string>)
    requires InOrder(m.q, batchSize, all)
    ensures InOrder(Acts(m, acts, batchSize).q, batchSize, all + Accepted(acts))
    decreases |acts|
  {
    if acts == [] {
      EmptySides(all);
    } else {
      TurnKeepsOrder(m, acts[0], batchSize, all);
      KeepsAllInOrder(Turn(m, acts[0], batchSize), acts[1..], batchSize, all + First(acts[0]));
      Assoc(all, First(acts[0]), Accepted(acts[1..]));
    }
  }

  lemma TurnKeepsOrder(m: Sender, a: Act, batchSize: int, all: seq<string>)
    requires InOrder(m.q, batchSize, all)
    ensures InOrder(Turn(m, a, batchSize).q, batchSize, all + First(a))
  {
    EmptySides(all);
    match a
    case Accept(line) => KeepsOrder(m.q, Add(line), batchSize, all);
    case Stop =>
    case Move => KeepsTake(m.q, batchSize, all);
    case Reply(ok) => KeepsAnswer(m.q, batchSize, all, ok);
  }

  /** Whatever stopping leaves, everything else was posted, in order: when the thread is done, the batches and the
      lines left are all lines ever accepted. */
  lemma RestWasPosted(acts: seq<Act>, batchSize: int)
    requires Acts(Started, acts, batchSize).worker == Done
    ensures var q := Acts(Started, acts, batchSize).q; LinesOf(q.posts) + q.buf == Accepted(acts)
  {
    KeepsAllInOrder(Started, acts, batchSize, []);
    ActsKeepSound(Started, acts, batchSize);
    EmptySides(Accepted(acts));
    EmptySides(LinesOf(Acts(Started, acts, batchSize).q.posts));
  }

  /** One flush whose post is answered. */
  function Flush(q: Queue, batchSize: int, ok: bool): Queue {
    Next(Next(q, Take, batchSize), Answer(ok), batchSize)
  }

  function Flushes(q: Queue, batchSize: int, n: nat): Queue
    decreases n
  {
    if n == 0 then q else Flushes(Flush(q, batchSize, true), batchSize, n - 1)
  }

  /** With nothing more added, `n` flushes drain exactly the buffers of at most `n` batches. */
  lemma {:induction false} DrainTime(q: Queue, batchSize: int, n: nat)
    requires q.inFlight == None && batchSize > 0
    ensures Flushes(q, batchSize, n).buf == [] <==> |q.buf| <= n * batchSize
    decreases n
  {
    if n > 0 {
      assert n * batchSize == (n - 1) * batchSize + batchSize;
      assert (n - 1) * batchSize >= 0;
      DrainTime(Flush(q, batchSize, true), batchSize, n - 1);
    }
  }

  /** How far a stopped thread is from its end; only the thread's own steps count down. */
  function Rank(w: Worker): nat {
    match w
    case Asleep => 6
    case Flushing => 5
    case Posting => 4
    case Testing => 3
    case LastFlush => 2
    case LastPost => 1
    case Done => 0
  }

  /** A stopped thread ends: whatever it waits for brings it nearer, and nothing takes it back. */
  lemma StopFinishes(m: Sender, a: Act, batchSize: int)
    requires !m.running
    ensures var m' := Turn(m, a, batchSize);
            && !m'.running && Rank(m'.worker) <= Rank(m.worker)
            && (m.worker != Done && (if m.worker == Posting || m.worker == LastPost then a.Reply? else a == Move) ==>
                  Rank(m'.worker) < Rank(m.worker))
  {
  }

  // ---------------------------------------------------------------- duplicates

  /** A line's fingerprint, standing for its first 50 characters, a bar and its length. */
  datatype Print = Print(head: string, length: nat)

  function PrintOf(line: string): Print { Print(if |line| <= 50 then line else line[..50], |line|) }

  /** The fingerprint as it is written. */
  function Written(line: string): string { (if |line| <= 50 then line else line[..50]) + ['|'] + Decimal(|line|) }

  lemma NoBar(n: nat)
    ensures forall k :: 0 <= k < |Decimal(n)| ==> Decimal(n)[k] != '|'
  {
    DecimalIsPlain(n);
  }

  lemma LastBar(a: string, u: string, s: string)
    requires s == a + ['|'] + u && forall k :: 0 <= k < |u| ==> u[k] != '|'
    ensures |a| < |s| && s[|a|] == '|' && forall k :: |a| < k < |s| ==> s[k] != '|'
  {
    assert forall k :: |a| < k < |s| ==> s[k] == u[k - |a| - 1];
  }

  /** What is written can be taken apart: the last bar is the one before the length. */
  lemma WrittenApart(a: string, b: string, m: nat, n: nat)
    requires a + ['|'] + Decimal(m) == b + ['|'] + Decimal(n)
    ensures a == b && m == n
  {
    var s := a + ['|'] + Decimal(m);
    NoBar(m);
    NoBar(n);
    LastBar(a, Decimal(m), s);
    LastBar(b, Decimal(n), s);
    assert s[..|a|] == a && s[..|b|] == b;
    assert s[|a| + 1..] == Decimal(m) && s[|b| + 1..] == Decimal(n);
    DecimalReadsBack(m);
    DecimalReadsBack(n);
  }

  /** Which lines count as the same: those of the same length with the same first 50 characters. The written
      fingerprint tells no others apart. */
  lemma SamePrint(a: string, b: string)
    ensures PrintOf(a) == PrintOf(b) <==> |a| == |b| && forall k :: 0 <= k < |a| && k < 50 ==> a[k] == b[k]
    ensures PrintOf(a) == PrintOf(b) <==> Written(a) == Written(b)
  {
    var x, y := PrintOf(a), PrintOf(b);
    assert forall k :: 0 <= k < |x.head| ==> x.head[k] == a[k];
    assert forall k :: 0 <= k < |y.head| ==> y.head[k] == b[k];
    if |a| == |b| && forall k :: 0 <= k < |a| && k < 50 ==> a[k] == b[k] { assert x.head == y.head; }
    if Written(a) == Written(b) { WrittenApart(x.head, y.head, |a|, |b|); }
  }

  /** What happens to the memory of fingerprints, in order. */
  datatype Event = Offered(p: Print) | Evicted(p: Print)

  function Remember(m: set<Print>, e: Event): set<Print> { if e.Offered? then m + {e.p} else m - {e.p} }

  /** The fingerprints such a history leaves in memory. */
  function Memory(events: seq<Event>): set<Print> {
    if events == [] then {} else Remember(Memory(events[..|events| - 1]), events[|events| - 1])
  }

  lemma MemoryStep(events: seq<Event>, e: Event)
    ensures Memory(events + [e]) == Remember(Memory(events), e)
  {
    assert (events + [e])[..|events|] == events;
  }

  class LineDedup {
    const max: nat
    var seen: set<Print>
    ghost var events: seq<Event>

    ghost predicate Valid()
      reads this
    {
      |seen| <= max && seen == Memory(events)
    }

    constructor (max: nat)
      ensures Valid() && events == [] && this.max == max
    {
      this.max, seen, events := max, {}, [];
    }

    /** A line passes if it is long enough and its fingerprint is not remembered. A full memory is then halved,
        in whatever order the hash table lists it. */
    method MarkAndSend(line: string) returns (ok: bool)
      requires Valid()
      modifies this
      ensures Valid() && old(events) <= events
      ensures !ok ==> seen == old(seen) && events == old(events)
      ensures ok <==> |line| >= 10 && PrintOf(line) !in old(seen)
      ensures ok ==> |events| > |old(events)| && events[|old(events)|] == Offered(PrintOf(line))
                     && Passes(events, |old(events)|)
      ensures ok ==> |seen| == if |old(seen)| < max then |old(seen)| + 1 else max / 2
    {
      if |line| < 10 { return false; }
      if PrintOf(line) in seen { return false; }
      MemoryStep(events, Offered(PrintOf(line)));
      seen := seen + {PrintOf(line)};
      events := events + [Offered(PrintOf(line))];
      Clean();
      assert events[..|old(events)|] == old(events);
      return true;
    }

    method Clean()
      requires seen == Memory(events)
      modifies this`seen, this`events
      ensures seen == Memory(events) && old(events) <= events
      ensures |old(seen)| <= max ==> seen == old(seen) && events == old(events)
      ensures |old(seen)| > max ==> |seen| == max / 2
    {
      if |seen| <= max { return; }
      var t := max / 2;
      while |seen| > t
        invariant t <= |seen| && seen == Memory(events) && old(events) <= events
        decreases |seen|
      {
        var it :| it in seen;
        MemoryStep(events, Evicted(it));
        seen := seen - {it};
        events := events + [Evicted(it)];
      }
    }
  }

  predicate Passes(events: seq<Event>, i: nat)
    requires i < |events|
  {
    events[i].Offered? && events[i].p !in Memory(events[..i])
  }

  /** Between two passes of one fingerprint it was evicted, under any order of evictions. */
  lemma PassedTwice(events: seq<Event>, i: nat, j: nat)
    requires i < j < |events| && Passes(events, i) && Passes(events, j) && events[i].p == events[j].p
    ensures exists k :: i < k < j && events[k] == Evicted(events[i].p)
  {
    StillRemembered(events, i, j);
  }

  lemma {:induction false} StillRemembered(events: seq<Event>, i: nat, j: nat)
    requires i < j <= |events| && events[i].Offered?
    ensures events[i].p in Memory(events[..j]) || exists k :: i < k < j && events[k] == Evicted(events[i].p)
    decreases j
  {
    assert events[..j][..j - 1] == events[..j - 1];
    if j > i + 1 { StillRemembered(events, i, j - 1); }
  }
}
