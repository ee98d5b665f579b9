/**
 * The window feed of the input dispatcher: arbiter block pushes racing token registrations.
 *
 * The protocol is a machine of interleaved atomic steps, one per critical section. A push generation numbers
 * the cached blocks, so that two pushes of equal text stay apart.
 */
module WindowFeed {
  import opened Options

  datatype Rect = Rect(l: int, t: int, r: int, b: int)

  /** A line of a block that parsed, or the line that completes it; anything else is `Other`. */
  datatype Line =
    | Win(pid: int, rect: Rect, focusable: bool)
    | Focus(pid: int)
    | Commit
    | Other

  type Block = seq<Line>

  /** The channel token a host registered, and the application token minted for it here. */
  datatype Tokens = Tokens(channel: nat, application: nat)

  datatype Window = Window(pid: int, tokens: Tokens, rect: Rect, focusable: bool)

  datatype Dispatch = Dispatch(id: nat, gen: nat, windows: seq<Window>)

  /** What one pass over a block has collected so far. */
  datatype Scan = Scan(seen: set<int>, wins: seq<Window>, focusPid: int)

  const NOTHING_SEEN := Scan({}, [], -1)

  /** One line: the first line of a pid counts, and only if its token is there. */
  function ScanLine(s: Scan, line: Line, tokens: map<int, Tokens>): Scan {
    match line
    case Win(pid, rect, focusable) =>
      if pid in s.seen then s
      else if pid !in tokens then s.(seen := s.seen + {pid})
      else s.(seen := s.seen + {pid}, wins := s.wins + [Window(pid, tokens[pid], rect, focusable)])
    case Focus(pid) => s.(focusPid := pid)
    case _ => s
  }

  // ---------------------------------------------------------------- what a block asks for

  predicate Names(line: Line, pid: int) { line.Win? && line.pid == pid }

  /** The first line of `block` for `pid`, from line `i` on; the block's length if there is none. */
  function FirstFrom(block: Block, pid: int, i: nat): (r: nat)
    requires i <= |block|
    ensures i <= r <= |block|
    ensures r < |block| ==> Names(block[r], pid)
    ensures forall k | i <= k < r :: !Names(block[k], pid)
    decreases |block| - i
  {
    if i == |block| || Names(block[i], pid) then i else FirstFrom(block, pid, i + 1)
  }

  function FirstAt(block: Block, pid: int): nat { FirstFrom(block, pid, 0) }

  predicate Listed(block: Block, pid: int) { FirstAt(block, pid) < |block| }

  /** `w` is what the first line for its pid asks for, and that line is above line `at`. */
  predicate Asked(block: Block, at: nat, w: Window)
    requires at <= |block|
  {
    var k := FirstAt(block, w.pid);
    k < at && block[k].rect == w.rect && block[k].focusable == w.focusable
  }

  /** `ws` are windows the block asks for, each pid once, in the block's top-to-bottom order. */
  ghost predicate Follows(block: Block, at: nat, ws: seq<Window>)
    requires at <= |block|
  {
    && (forall i | 0 <= i < |ws| :: Asked(block, at, ws[i]))
    && (forall i, j | 0 <= i < j < |ws| :: FirstAt(block, ws[i].pid) < FirstAt(block, ws[j].pid))
  }

  /** A pass that is at line `at` has looked at exactly the pids above it. */
  ghost predicate ScanOk(block: Block, at: nat, scan: Scan) {
    && at <= |block|
    && (forall pid :: pid in scan.seen <==> FirstAt(block, pid) < at)
    && Follows(block, at, scan.wins)
  }

  /** Line `k` is the last of the first `n` lines that names a focus. */
  predicate LastFocus(block: Block, n: nat, k: nat) {
    k < n <= |block| && block[k].Focus? && forall j | k < j < n :: !block[j].Focus?
  }

  predicate NoFocus(block: Block, n: nat) { n <= |block| && forall j | 0 <= j < n :: !block[j].Focus? }

  /** `pid` is what the last focus line of the first `n` names, and negative if there is none. */
  ghost predicate FocusNamed(block: Block, n: nat, pid: int) {
    && (forall k: nat | LastFocus(block, n, k) :: pid == block[k].pid)
    && (NoFocus(block, n) ==> pid < 0)
  }

  /** The channel of the pid that the last focus line names was asked to be focused, if it has a token; nothing else. */
  ghost predicate FocusGiven(block: Block, tokens: map<int, Tokens>, before: seq<nat>, after: seq<nat>) {
    && (forall k: nat | LastFocus(block, |block|, k) ::
          var pid := block[k].pid;
          after == if pid >= 0 && pid in tokens then before + [tokens[pid].channel] else before)
    && (NoFocus(block, |block|) ==> after == before)
  }

  lemma FocusStep(block: Block, at: nat, scan: Scan, tokens: map<int, Tokens>)
    requires at < |block| && FocusNamed(block, at, scan.focusPid)
    ensures FocusNamed(block, at + 1, ScanLine(scan, block[at], tokens).focusPid)
  {
    if NoFocus(block, at + 1) {
      assert NoFocus(block, at);
    }
    forall k: nat | LastFocus(block, at + 1, k) ensures ScanLine(scan, block[at], tokens).focusPid == block[k].pid {
      if k < at {
        assert !block[at].Focus? && LastFocus(block, at, k);
      }
    }
  }

  /** Either no line names a focus, or one is the last that does. */
  lemma {:induction false} FocusOrNot(block: Block, n: nat)
    requires n <= |block|
    ensures NoFocus(block, n) || exists k: nat :: LastFocus(block, n, k)
  {
    if n > 0 {
      var m := n - 1;
      FocusOrNot(block, m);
      if block[m].Focus? {
        assert LastFocus(block, n, m);
      } else if !NoFocus(block, m) {
        var k: nat :| LastFocus(block, m, k);
        assert LastFocus(block, n, k);
      }
    }
  }

  lemma ScanStart(block: Block)
    ensures ScanOk(block, 0, NOTHING_SEEN)
  {}

  /** The first line of the pid on line `at` is above `at` or is that line; other pids do not start there. */
  lemma FirstHere(block: Block, at: nat)
    requires at < |block|
    ensures block[at].Win? ==> FirstAt(block, block[at].pid) <= at
    ensures forall pid | FirstAt(block, pid) == at :: Names(block[at], pid)
  {}

  lemma ScanStep(block: Block, at: nat, scan: Scan, tokens: map<int, Tokens>)
    requires ScanOk(block, at, scan) && at < |block|
    ensures ScanOk(block, at + 1, ScanLine(scan, block[at], tokens))
  {
    FirstHere(block, at);
    var after := ScanLine(scan, block[at], tokens);
    forall pid ensures pid in after.seen <==> FirstAt(block, pid) < at + 1 {
      assert pid in scan.seen <==> FirstAt(block, pid) < at;
    }
  }

  // ---------------------------------------------------------------- the machine

  datatype Thread =
    | Idle
    | WantFeed(block: Block)                             // a complete block was read from the socket
    | HoldFeed(block: Block)                             // g_feed_mtx taken, cache not yet written
    | Registered(pid: int)                               // token stored, cache not yet copied
    | WantRefeed(gen: nat, block: Block)                 // cache copied, g_feed_mtx not yet taken
    | Feeding(gen: nat, block: Block, at: nat, scan: Scan)
    | Focusing(pid: int)                                 // dispatched; focus request to come

  datatype State = State(
    tokens: map<int, Tokens>,
    minted: nat,
    pushed: seq<Block>,                  // every block ever cached; the cache is the last of them
    lock: Option<nat>,                   // who holds g_feed_mtx
    threads: seq<Thread>,
    log: seq<Dispatch>,                  // what the dispatcher was given
    focused: seq<nat>)                   // channels that were asked to be focused

  datatype Step =
    | Push(t: nat, block: Block)
    | TakePush(t: nat)
    | Cache(t: nat)
    | Register(t: nat, pid: int, channel: nat)
    | Unregister(t: nat, pid: int)
    | Copy(t: nat)
    | TakeRefeed(t: nat)
    | ReadLine(t: nat)
    | Send(t: nat)
    | SetFocus(t: nat)

  predicate Enabled(s: State, step: Step) {
    step.t < |s.threads| &&
    var th := s.threads[step.t];
    match step
    case Push(_, block) => th.Idle? && Commit in block
    case TakePush(_) => th.WantFeed? && s.lock.None?
    case Cache(_) => th.HoldFeed?
    case Register(_, _, _) => th.Idle?
    case Unregister(_, _) => th.Idle?
    case Copy(_) => th.Registered?
    case TakeRefeed(_) => th.WantRefeed? && s.lock.None?
    case ReadLine(_) => th.Feeding? && th.at < |th.block|
    case Send(_) => th.Feeding? && th.at == |th.block|
    case SetFocus(_) => th.Focusing?
  }

  /** What thread `step.t` becomes. */
  function Moved(s: State, step: Step): Thread
    requires Enabled(s, step)
  {
    var th := s.threads[step.t];
    match step
    case Push(_, block) => WantFeed(block)
    case TakePush(_) => HoldFeed(th.block)
    case Cache(_) => Feeding(|s.pushed| + 1, th.block, 0, NOTHING_SEEN)
    case Register(_, pid, _) => Registered(pid)
    case Unregister(_, _) => Idle
    case Copy(_) =>
      if s.pushed == [] || s.pushed[|s.pushed| - 1] == [] then Idle
      else WantRefeed(|s.pushed|, s.pushed[|s.pushed| - 1])
    case TakeRefeed(_) => Feeding(th.gen, th.block, 0, NOTHING_SEEN)
    case ReadLine(_) => th.(at := th.at + 1, scan := ScanLine(th.scan, th.block[th.at], s.tokens))
    case Send(_) => Focusing(th.scan.focusPid)
    case SetFocus(_) => Idle
  }

  function Apply(s: State, step: Step): State
    requires Enabled(s, step)
  {
    var th := s.threads[step.t];
    var s' := s.(threads := s.threads[step.t := Moved(s, step)]);
    match step
    case TakePush(t) => s'.(lock := Some(t))
    case TakeRefeed(t) => s'.(lock := Some(t))
    case Cache(_) => s'.(pushed := s.pushed + [th.block])
    case Register(_, pid, channel) =>
      if pid in s.tokens then s'.(tokens := s.tokens[pid := Tokens(channel, s.tokens[pid].application)])
      else s'.(tokens := s.tokens[pid := Tokens(channel, s.minted)], minted := s.minted + 1)
    case Unregister(_, pid) => s'.(tokens := s.tokens - {pid})
    case Send(_) => s'.(log := s.log + [Dispatch(|s.log| + 1, th.gen, th.scan.wins)])
    case SetFocus(_) =>
      s'.(lock := None,
          focused := if th.pid >= 0 && th.pid in s.tokens then s.focused + [s.tokens[th.pid].channel] else s.focused)
    case _ => s'
  }

  predicate Possible(s: State, steps: seq<Step>)
    decreases |steps|
  {
    steps == [] || (Enabled(s, steps[0]) && Possible(Apply(s, steps[0]), steps[1..]))
  }

  /** The state after a run. */
  function Run(s: State, steps: seq<Step>): State
    requires Possible(s, steps)
    decreases |steps|
  {
    if steps == [] then s else Run(Apply(s, steps[0]), steps[1..])
  }

  ghost predicate Quiet(s: State) { forall t | 0 <= t < |s.threads| :: s.threads[t].Idle? }

  ghost predicate Initial(s: State) {
    && s.tokens == map[] && s.pushed == [] && s.lock == None && s.log == [] && s.focused == [] && Quiet(s)
  }

  // ---------------------------------------------------------------- what every run keeps

  predicate Holder(th: Thread) { th.HoldFeed? || th.Feeding? || th.Focusing? }

  /** The feed lock is held by exactly the thread that is inside the feed. */
  ghost predicate LockOk(s: State) {
    && (forall t: nat | t < |s.threads| :: Holder(s.threads[t]) <==> s.lock == Some(t))
    && (s.lock.Some? ==> s.lock.value < |s.threads|)
  }

  /** `block` is the one push `gen` cached. */
  predicate Pushed(s: State, gen: nat, block: Block) { 1 <= gen <= |s.pushed| && s.pushed[gen - 1] == block }

  ghost predicate ThreadOk(s: State, th: Thread) {
    && (th.Feeding? ==> Pushed(s, th.gen, th.block) && ScanOk(th.block, th.at, th.scan))
    && (th.WantRefeed? ==> Pushed(s, th.gen, th.block))
  }

  /** The k-th dispatch has id k + 1 and shows windows of one cached block, in that block's order. */
  ghost predicate EntryOk(s: State, k: nat)
    requires k < |s.log|
  {
    && s.log[k].id == k + 1 && 1 <= s.log[k].gen <= |s.pushed|
    && var block := s.pushed[s.log[k].gen - 1]; Follows(block, |block|, s.log[k].windows)
  }

  /** `ws` shows `pid` under `tokens`. */
  ghost predicate Shows(ws: seq<Window>, pid: int, tokens: Tokens) {
    exists i :: 0 <= i < |ws| && ws[i].pid == pid && ws[i].tokens == tokens
  }

  /** Some dispatch of push `gen` showed `pid` under `tokens`. */
  ghost predicate Shown(s: State, gen: nat, pid: int, tokens: Tokens) {
    exists k :: 0 <= k < |s.log| && s.log[k].gen == gen && Shows(s.log[k].windows, pid, tokens)
  }

  /** Thread `th` has that window in hand for push `gen`, or has yet to look its token up. */
  ghost predicate Pending(th: Thread, gen: nat, pid: int, tokens: Tokens) {
    || (th.Registered? && th.pid == pid)
    || (th.WantRefeed? && th.gen == gen)
    || (th.Feeding? && th.gen == gen && (Shows(th.scan.wins, pid, tokens) || pid !in th.scan.seen))
  }

  ghost predicate SomePending(s: State, pid: int)
    requires pid in s.tokens
  {
    exists t :: 0 <= t < |s.threads| && Pending(s.threads[t], |s.pushed|, pid, s.tokens[pid])
  }

  ghost predicate ServedFor(s: State, pid: int)
    requires pid in s.tokens
  {
    Shown(s, |s.pushed|, pid, s.tokens[pid]) || SomePending(s, pid)
  }

  /** Every window of the newest block whose token is registered was shown under it, or is being taken care of. */
  ghost predicate Served(s: State) {
    s.pushed != [] ==> forall pid | pid in s.tokens && Listed(s.pushed[|s.pushed| - 1], pid) :: ServedFor(s, pid)
  }

  ghost predicate Inv(s: State) {
    && LockOk(s) && Served(s)
    && (forall k: nat | k < |s.log| :: EntryOk(s, k))
    && (forall t | 0 <= t < |s.threads| :: ThreadOk(s, s.threads[t]))
  }

  lemma LockStep(s: State, step: Step)
    requires LockOk(s) && Enabled(s, step)
    ensures LockOk(Apply(s, step))
  {}

  lemma ThreadsStep(s: State, step: Step, t: nat)
    requires Enabled(s, step) && forall u | 0 <= u < |s.threads| :: ThreadOk(s, s.threads[u])
    requires t < |s.threads|
    ensures ThreadOk(Apply(s, step), Apply(s, step).threads[t])
  {
    var th := s.threads[t];
    assert ThreadOk(s, th);
    if t == step.t {
      if step.ReadLine? { ScanStep(th.block, th.at, th.scan, s.tokens); }
      if step.Cache? || step.TakeRefeed? { ScanStart(th.block); }
    }
  }

  /** An entry stays what it is when more is pushed and logged. */
  lemma EntryStays(s: State, s': State, k: nat)
    requires k < |s.log| && EntryOk(s, k) && s.log <= s'.log && s.pushed <= s'.pushed
    ensures EntryOk(s', k)
  {
    assert s'.log[k] == s.log[k] && s'.pushed[s.log[k].gen - 1] == s.pushed[s.log[k].gen - 1];
  }

  lemma SendLogs(s: State, step: Step)
    requires Enabled(s, step) && step.Send? && ThreadOk(s, s.threads[step.t])
    ensures EntryOk(Apply(s, step), |s.log|) && |Apply(s, step).log| == |s.log| + 1
  {
    var th := s.threads[step.t];
    assert Apply(s, step).log[|s.log|] == Dispatch(|s.log| + 1, th.gen, th.scan.wins);
  }

  lemma LogStep(s: State, step: Step, k: nat)
    requires Enabled(s, step) && forall j: nat | j < |s.log| :: EntryOk(s, j)
    requires forall u | 0 <= u < |s.threads| :: ThreadOk(s, s.threads[u])
    requires k < |Apply(s, step).log|
    ensures EntryOk(Apply(s, step), k)
  {
    if k < |s.log| {
      EntryStays(s, Apply(s, step), k);
    } else {
      SendLogs(s, step);
    }
  }

  /** What was shown stays shown. */
  lemma ShownStays(s: State, step: Step, gen: nat, pid: int, tokens: Tokens)
    requires Enabled(s, step) && Shown(s, gen, pid, tokens)
    ensures Shown(Apply(s, step), gen, pid, tokens)
  {
    var k :| 0 <= k < |s.log| && s.log[k].gen == gen && Shows(s.log[k].windows, pid, tokens);
    assert Apply(s, step).log[k] == s.log[k];
  }

  /** A line keeps what was collected, and collects the first line of a pid that has a token. */
  lemma LineShows(scan: Scan, line: Line, tokens: map<int, Tokens>, pid: int)
    requires pid in tokens && (Shows(scan.wins, pid, tokens[pid]) || (pid !in scan.seen && Names(line, pid)))
    ensures Shows(ScanLine(scan, line, tokens).wins, pid, tokens[pid])
  {
    var after := ScanLine(scan, line, tokens);
    if Shows(scan.wins, pid, tokens[pid]) {
      var i :| 0 <= i < |scan.wins| && scan.wins[i].pid == pid && scan.wins[i].tokens == tokens[pid];
      assert after.wins[i] == scan.wins[i];
    } else {
      assert after.wins[|scan.wins|] == Window(pid, tokens[pid], line.rect, line.focusable);
    }
  }

  /** A line read shows the window, or leaves it pending. */
  lemma LinePending(th: Thread, gen: nat, pid: int, tokens: map<int, Tokens>)
    requires th.Feeding? && th.at < |th.block| && pid in tokens && Pending(th, gen, pid, tokens[pid])
    ensures Pending(th.(at := th.at + 1, scan := ScanLine(th.scan, th.block[th.at], tokens)), gen, pid, tokens[pid])
  {
    if Shows(th.scan.wins, pid, tokens[pid]) || Names(th.block[th.at], pid) {
      LineShows(th.scan, th.block[th.at], tokens, pid);
    }
  }

  /** The step of a thread that had the window pending leaves it pending or shown. */
  lemma PendingMoves(s: State, step: Step, pid: int)
    requires Enabled(s, step) && !step.Cache? && pid in s.tokens && pid in Apply(s, step).tokens
    requires Apply(s, step).tokens[pid] == s.tokens[pid]
    requires ThreadOk(s, s.threads[step.t]) && s.pushed != [] && Listed(s.pushed[|s.pushed| - 1], pid)
    requires Pending(s.threads[step.t], |s.pushed|, pid, s.tokens[pid])
    ensures ServedFor(Apply(s, step), pid)
  {
    var th, s' := s.threads[step.t], Apply(s, step);
    if step.Send? {
      assert pid in th.scan.seen;
      assert s'.log[|s.log|].gen == |s'.pushed| && Shows(s'.log[|s.log|].windows, pid, s'.tokens[pid]);
    } else {
      if step.ReadLine? { LinePending(th, |s.pushed|, pid, s.tokens); }
      assert Pending(s'.threads[step.t], |s'.pushed|, pid, s'.tokens[pid]);
    }
  }

  lemma ServedStep(s: State, step: Step, pid: int)
    requires Enabled(s, step) && Inv(s)
    requires var s' := Apply(s, step); s'.pushed != [] && pid in s'.tokens && Listed(s'.pushed[|s'.pushed| - 1], pid)
    ensures ServedFor(Apply(s, step), pid)
  {
    var s' := Apply(s, step);
    if step.Cache? || (step.Register? && step.pid == pid) {
      assert Pending(s'.threads[step.t], |s'.pushed|, pid, s'.tokens[pid]);
    } else {
      assert pid in s.tokens && s'.tokens[pid] == s.tokens[pid] && s'.pushed == s.pushed;
      assert ServedFor(s, pid);
      if Shown(s, |s.pushed|, pid, s.tokens[pid]) {
        ShownStays(s, step, |s.pushed|, pid, s.tokens[pid]);
      } else {
        var t :| 0 <= t < |s.threads| && Pending(s.threads[t], |s.pushed|, pid, s.tokens[pid]);
        if t == step.t {
          assert ThreadOk(s, s.threads[t]);
          PendingMoves(s, step, pid);
        } else {
          assert Pending(s'.threads[t], |s'.pushed|, pid, s'.tokens[pid]);
        }
      }
    }
  }

  lemma StepKeepsInv(s: State, step: Step)
    requires Inv(s) && Enabled(s, step)
    ensures Inv(Apply(s, step))
  {
    var s' := Apply(s, step);
    LockStep(s, step);
    forall k: nat | k < |s'.log| ensures EntryOk(s', k) { LogStep(s, step, k); }
    forall t | 0 <= t < |s'.threads| ensures ThreadOk(s', s'.threads[t]) { ThreadsStep(s, step, t); }
    if s'.pushed != [] {
      forall pid | pid in s'.tokens && Listed(s'.pushed[|s'.pushed| - 1], pid) ensures ServedFor(s', pid) {
        ServedStep(s, step, pid);
      }
    }
  }

  lemma {:induction false} RunKeepsInv(s: State, steps: seq<Step>)
    requires Inv(s) && Possible(s, steps)
    ensures Inv(Run(s, steps))
    decreases |steps|
  {
    if steps != [] {
      StepKeepsInv(s, steps[0]);
      RunKeepsInv(Apply(s, steps[0]), steps[1..]);
    }
  }

  /**
   * After any interleaving, once every thread is idle: each window of the last block whose token is registered
   * was shown, by some dispatch of that block, under the very token that is registered now.
   */
  lemma QuietMeansShown(s: State, steps: seq<Step>, pid: int)
    requires Initial(s) && Possible(s, steps)
    requires var z := Run(s, steps);
      Quiet(z) && z.pushed != [] && pid in z.tokens && Listed(z.pushed[|z.pushed| - 1], pid)
    ensures var z := Run(s, steps); Shown(z, |z.pushed|, pid, z.tokens[pid])
  {
    RunKeepsInv(s, steps);
    var z := Run(s, steps);
    assert ServedFor(z, pid);
  }

  /** After any interleaving: dispatch ids count up from one, and every dispatch is a block's windows in its order. */
  lemma DispatchesInOrder(s: State, steps: seq<Step>, k: nat)
    requires Initial(s) && Possible(s, steps) && k < |Run(s, steps).log|
    ensures EntryOk(Run(s, steps), k)
  {
    RunKeepsInv(s, steps);
  }

  // ---------------------------------------------------------------- the focus

  /** The focus a thread has in hand: what the lines it has read name, or what the block it just dispatched names. */
  ghost predicate FocusOk(s: State, th: Thread) {
    && (th.Feeding? ==> FocusNamed(th.block, th.at, th.scan.focusPid))
    && (th.Focusing? ==> s.log != [] && FocusNamed(LastShown(s), |LastShown(s)|, th.pid))
  }

  /** The block of the last dispatch. */
  ghost function LastShown(s: State): Block
    requires s.log != []
  {
    var gen := s.log[|s.log| - 1].gen;
    if 1 <= gen <= |s.pushed| then s.pushed[gen - 1] else []
  }

  lemma LastShownStays(s: State, step: Step)
    requires Inv(s) && Enabled(s, step) && s.log != [] && !step.Send?
    ensures Apply(s, step).log == s.log && LastShown(Apply(s, step)) == LastShown(s)
  {
    assert EntryOk(s, |s.log| - 1);
  }

  lemma FocusMoves(s: State, step: Step)
    requires Inv(s) && Enabled(s, step) && FocusOk(s, s.threads[step.t])
    ensures FocusOk(Apply(s, step), Apply(s, step).threads[step.t])
  {
    var th := s.threads[step.t];
    assert ThreadOk(s, th);
    if step.ReadLine? {
      FocusStep(th.block, th.at, th.scan, s.tokens);
    }
  }

  lemma FocusStays(s: State, step: Step, t: nat)
    requires Inv(s) && Enabled(s, step) && t < |s.threads| && FocusOk(s, s.threads[t]) && t != step.t
    ensures FocusOk(Apply(s, step), s.threads[t])
  {
    assert Holder(s.threads[t]) <==> s.lock == Some(t);
    assert Holder(s.threads[step.t]) <==> s.lock == Some(step.t);
    if s.threads[t].Focusing? {
      LastShownStays(s, step);
    }
  }

  lemma {:induction false} RunKeepsFocus(s: State, steps: seq<Step>)
    requires Inv(s) && Possible(s, steps) && forall t | 0 <= t < |s.threads| :: FocusOk(s, s.threads[t])
    ensures |Run(s, steps).threads| == |s.threads|
    ensures forall t | 0 <= t < |s.threads| :: FocusOk(Run(s, steps), Run(s, steps).threads[t])
    decreases |steps|
  {
    if steps != [] {
      forall t | 0 <= t < |s.threads| ensures FocusOk(Apply(s, steps[0]), Apply(s, steps[0]).threads[t]) {
        if t == steps[0].t { FocusMoves(s, steps[0]); } else { FocusStays(s, steps[0], t); }
      }
      StepKeepsInv(s, steps[0]);
      RunKeepsFocus(Apply(s, steps[0]), steps[1..]);
    }
  }

  /**
   * After any interleaving, the thread that is about to set the focus asks for the channel of the pid that the last
   * focus line of the block just dispatched names, if it has a token by now, and for nothing otherwise.
   */
  lemma FocusFollowsBlock(s: State, steps: seq<Step>, t: nat)
    requires Initial(s) && Possible(s, steps) && Enabled(Run(s, steps), SetFocus(t))
    ensures var z := Run(s, steps);
      && z.log != [] && FocusGiven(LastShown(z), z.tokens, z.focused, Apply(z, SetFocus(t)).focused)
  {
    var z := Run(s, steps);
    RunKeepsFocus(s, steps);
    assert FocusOk(z, z.threads[t]);
    FocusOrNot(LastShown(z), |LastShown(z)|);
  }

  /** And no other step asks for a focus. */
  lemma OnlySetFocus(s: State, step: Step)
    requires Enabled(s, step) && Apply(s, step).focused != s.focused
    ensures step.SetFocus?
  {}

  // ---------------------------------------------------------------- every run comes to rest

  /** Neither a new push nor a host call: the threads finishing what they have begun. */
  predicate Internal(step: Step) { !step.Push? && !step.Register? && !step.Unregister? }

  /** No deadlock: while some thread is busy, some thread can move on. */
  lemma SomeoneMoves(s: State, t: nat) returns (step: Step)
    requires Inv(s) && t < |s.threads| && !s.threads[t].Idle?
    ensures Internal(step) && Enabled(s, step)
  {
    var u: nat := if s.lock.Some? then s.lock.value else t;
    var th := s.threads[u];
    assert Holder(th) <==> s.lock == Some(u);
    assert ThreadOk(s, th);
    step := match th
      case WantFeed(_) => TakePush(u)
      case HoldFeed(_) => Cache(u)
      case Registered(_) => Copy(u)
      case WantRefeed(_, _) => TakeRefeed(u)
      case Feeding(_, block, at, _) => if at < |block| then ReadLine(u) else Send(u)
      case _ => SetFocus(u);
  }

  /** No block in sight has more than `m` lines. */
  ghost predicate Within(s: State, m: nat) {
    && (forall k | 0 <= k < |s.pushed| :: |s.pushed[k]| <= m)
    && (forall t | 0 <= t < |s.threads| :: Small(s.threads[t], m))
  }

  predicate Small(th: Thread, m: nat) {
    match th
    case WantFeed(block) => |block| <= m
    case HoldFeed(block) => |block| <= m
    case WantRefeed(_, block) => |block| <= m
    case Feeding(_, block, at, _) => at <= |block| <= m
    case _ => true
  }

  /** How many steps thread `th` still has to go, at most. */
  function Work(th: Thread, m: nat): int {
    match th
    case Idle => 0
    case WantFeed(_) => m + 4
    case HoldFeed(_) => m + 3
    case Registered(_) => m + 4
    case WantRefeed(_, _) => m + 3
    case Feeding(_, _, at, _) => m - at + 2
    case Focusing(_) => 1
  }

  function TotalWork(threads: seq<Thread>, m: nat): int {
    if threads == [] then 0 else Work(threads[0], m) + TotalWork(threads[1..], m)
  }

  lemma {:induction false} WorkAfter(threads: seq<Thread>, t: nat, th: Thread, m: nat)
    requires t < |threads|
    ensures TotalWork(threads[t := th], m) == TotalWork(threads, m) - Work(threads[t], m) + Work(th, m)
  {
    if t > 0 {
      WorkAfter(threads[1..], t - 1, th, m);
      assert threads[t := th][1..] == threads[1..][t - 1 := th];
    } else {
      assert threads[t := th][1..] == threads[1..];
    }
  }

  lemma {:induction false} WorkNonNegative(threads: seq<Thread>, m: nat)
    requires forall t | 0 <= t < |threads| :: Small(threads[t], m)
    ensures TotalWork(threads, m) >= 0
  {
    if threads != [] {
      assert Small(threads[0], m);
      WorkNonNegative(threads[1..], m);
    }
  }

  lemma InternalWorks(s: State, step: Step, m: nat)
    requires Within(s, m) && Enabled(s, step) && Internal(step)
    ensures Within(Apply(s, step), m)
    ensures TotalWork(Apply(s, step).threads, m) < TotalWork(s.threads, m)
  {
    assert Small(s.threads[step.t], m);
    WorkAfter(s.threads, step.t, Moved(s, step), m);
  }

  /** No livelock: a run of steps that only finishes what was begun is no longer than the work there was. */
  lemma {:induction false} InternalRunsEnd(s: State, steps: seq<Step>, m: nat)
    requires Within(s, m) && Possible(s, steps) && forall i | 0 <= i < |steps| :: Internal(steps[i])
    ensures |steps| <= TotalWork(s.threads, m)
    decreases |steps|
  {
    if steps == [] {
      WorkNonNegative(s.threads, m);
    } else {
      InternalWorks(s, steps[0], m);
      InternalRunsEnd(Apply(s, steps[0]), steps[1..], m);
    }
  }

  // ---------------------------------------------------------------- when the last dispatch is the newest

  /** A re-feed that takes the lock after a newer block was cached. */
  predicate Stale(s: State, step: Step)
    requires Enabled(s, step)
  {
    step.TakeRefeed? && s.threads[step.t].gen < |s.pushed|
  }

  predicate NeverStale(s: State, steps: seq<Step>)
    requires Possible(s, steps)
    decreases |steps|
  {
    steps == [] || (!Stale(s, steps[0]) && NeverStale(Apply(s, steps[0]), steps[1..]))
  }

  /** Dispatches are of older blocks first. */
  ghost predicate InPushOrder(log: seq<Dispatch>) {
    forall j, k | 0 <= j < k < |log| :: log[j].gen <= log[k].gen
  }

  /** Nothing is behind: dispatches in push order, and whoever feeds, feeds the newest block. */
  ghost predicate Current(s: State) {
    InPushOrder(s.log) && forall t | 0 <= t < |s.threads| && s.threads[t].Feeding? :: s.threads[t].gen == |s.pushed|
  }

  /** The newest block was dispatched, or the lock holder is about to. */
  ghost predicate NewestOut(s: State) {
    s.pushed != [] ==>
      || (exists k :: 0 <= k < |s.log| && s.log[k].gen == |s.pushed|)
      || (exists t :: 0 <= t < |s.threads| && s.threads[t].Feeding? && s.threads[t].gen == |s.pushed|)
  }

  /** Out of order already, or bound to be: a feed of an older block than some dispatch is under way. */
  ghost predicate Behind(s: State) {
    || !InPushOrder(s.log)
    || (exists t, k ::
          0 <= t < |s.threads| && 0 <= k < |s.log| && s.threads[t].Feeding? && s.threads[t].gen < s.log[k].gen)
  }

  lemma NewestOutStep(s: State, step: Step)
    requires Enabled(s, step) && NewestOut(s)
    ensures NewestOut(Apply(s, step))
  {
    var s' := Apply(s, step);
    if step.Cache? {
      assert s'.threads[step.t].Feeding? && s'.threads[step.t].gen == |s'.pushed|;
    } else if s.pushed != [] {
      if k :| 0 <= k < |s.log| && s.log[k].gen == |s.pushed| {
        assert s'.log[k].gen == |s'.pushed|;
      } else {
        var t :| 0 <= t < |s.threads| && s.threads[t].Feeding? && s.threads[t].gen == |s.pushed|;
        if t == step.t && step.Send? {
          assert s'.log[|s.log|].gen == |s'.pushed|;
        } else {
          assert s'.threads[t].Feeding? && s'.threads[t].gen == |s'.pushed|;
        }
      }
    }
  }

  lemma CurrentStep(s: State, step: Step)
    requires Inv(s) && Enabled(s, step) && Current(s) && !Stale(s, step)
    ensures Current(Apply(s, step))
  {
    var s' := Apply(s, step);
    assert ThreadOk(s, s.threads[step.t]);
    if step.Send? {
      forall j, k | 0 <= j < k < |s'.log| ensures s'.log[j].gen <= s'.log[k].gen {
        assert EntryOk(s, j);
      }
    }
    forall t | 0 <= t < |s'.threads| && s'.threads[t].Feeding? ensures s'.threads[t].gen == |s'.pushed| {
      assert Holder(s.threads[step.t]) <==> s.lock == Some(step.t);
      assert t != step.t ==> (Holder(s.threads[t]) <==> s.lock == Some(t));
    }
  }

  lemma StaleIsBehind(s: State, step: Step)
    requires Inv(s) && NewestOut(s) && Enabled(s, step) && Stale(s, step)
    ensures Behind(Apply(s, step))
  {
    var s' := Apply(s, step);
    assert forall t: nat | t < |s.threads| :: Holder(s.threads[t]) <==> s.lock == Some(t);
    var k :| 0 <= k < |s.log| && s.log[k].gen == |s.pushed|;
    assert s'.threads[step.t].Feeding? && s'.threads[step.t].gen < s'.log[k].gen;
  }

  lemma BehindStays(s: State, step: Step)
    requires Enabled(s, step) && Behind(s)
    ensures Behind(Apply(s, step))
  {
    var s' := Apply(s, step);
    if !InPushOrder(s.log) {
      var j, k :| 0 <= j < k < |s.log| && s.log[j].gen > s.log[k].gen;
      assert s'.log[j] == s.log[j] && s'.log[k] == s.log[k];
    } else {
      var t, k :| 0 <= t < |s.threads| && 0 <= k < |s.log| && s.threads[t].Feeding? && s.threads[t].gen < s.log[k].gen;
      assert s'.log[k] == s.log[k];
      if t == step.t && step.Send? {
        assert s'.log[|s.log|].gen < s'.log[k].gen;
      } else {
        assert s'.threads[t].Feeding? && s'.threads[t].gen == s.threads[t].gen;
      }
    }
  }

  lemma {:induction false} BehindForGood(s: State, steps: seq<Step>)
    requires Possible(s, steps) && Behind(s)
    ensures Behind(Run(s, steps))
    decreases |steps|
  {
    if steps != [] {
      BehindStays(s, steps[0]);
      BehindForGood(Apply(s, steps[0]), steps[1..]);
    }
  }

  lemma {:induction false} OrderedFrom(s: State, steps: seq<Step>)
    requires Inv(s) && Possible(s, steps) && Current(s) && NewestOut(s)
    ensures NeverStale(s, steps) ==> Current(Run(s, steps)) && NewestOut(Run(s, steps))
    ensures !NeverStale(s, steps) ==> Behind(Run(s, steps))
    decreases |steps|
  {
    if steps != [] {
      var s' := Apply(s, steps[0]);
      StepKeepsInv(s, steps[0]);
      NewestOutStep(s, steps[0]);
      if Stale(s, steps[0]) {
        StaleIsBehind(s, steps[0]);
        BehindForGood(s', steps[1..]);
      } else {
        CurrentStep(s, steps[0]);
        OrderedFrom(s', steps[1..]);
      }
    }
  }

  /**
   * A run that has come to rest dispatched the blocks in push order exactly if no re-feed took the lock with an
   * outdated copy.
   */
  lemma InOrderIff(s: State, steps: seq<Step>)
    requires Initial(s) && Possible(s, steps) && Quiet(Run(s, steps))
    ensures InPushOrder(Run(s, steps).log) <==> NeverStale(s, steps)
  {
    OrderedFrom(s, steps);
  }

  /** Was the last step that took the feed lock a stale re-feed? `was` is the answer before the run. */
  function LastTakeStale(s: State, steps: seq<Step>, was: bool): bool
    requires Possible(s, steps)
    decreases |steps|
  {
    if steps == [] then was else LastTakeStale(Apply(s, steps[0]), steps[1..], TakesStale(s, steps[0], was))
  }

  function TakesStale(s: State, step: Step, was: bool): bool
    requires Enabled(s, step)
  {
    match step
    case TakePush(_) => false
    case TakeRefeed(_) => Stale(s, step)
    case _ => was
  }

  /** The last dispatch is of the newest block. */
  ghost predicate NewestLast(s: State) { s.log != [] && s.log[|s.log| - 1].gen == |s.pushed| }

  /** What the last take of the lock means, by how far its feed has come. */
  ghost predicate TakeOk(s: State, stale: bool) {
    if s.lock.None? then s.pushed != [] ==> (NewestLast(s) <==> !stale)
    else
      s.lock.value < |s.threads| &&
      match s.threads[s.lock.value]
      case HoldFeed(_) => !stale
      case Feeding(gen, _, _, _) => gen == |s.pushed| <==> !stale
      case _ => NewestLast(s) <==> !stale
  }

  lemma TakeStep(s: State, step: Step, was: bool)
    requires Inv(s) && Enabled(s, step) && TakeOk(s, was)
    ensures TakeOk(Apply(s, step), TakesStale(s, step, was))
  {
    var th := s.threads[step.t];
    assert Holder(th) <==> s.lock == Some(step.t);
    assert ThreadOk(s, th);
  }

  lemma {:induction false} TakeRun(s: State, steps: seq<Step>, was: bool)
    requires Inv(s) && Possible(s, steps) && TakeOk(s, was)
    ensures TakeOk(Run(s, steps), LastTakeStale(s, steps, was))
    decreases |steps|
  {
    if steps != [] {
      StepKeepsInv(s, steps[0]);
      TakeStep(s, steps[0], was);
      TakeRun(Apply(s, steps[0]), steps[1..], TakesStale(s, steps[0], was));
    }
  }

  /**
   * At rest the last dispatch is of the newest block exactly if the last step that took the feed lock was no stale
   * re-feed.
   */
  lemma NewestLastIff(s: State, steps: seq<Step>)
    requires Initial(s) && Possible(s, steps) && Quiet(Run(s, steps)) && Run(s, steps).pushed != []
    ensures NewestLast(Run(s, steps)) <==> !LastTakeStale(s, steps, false)
  {
    var z := Run(s, steps);
    RunKeepsInv(s, steps);
    TakeRun(s, steps, false);
    if z.lock.Some? {
      assert Holder(z.threads[z.lock.value]) <==> z.lock == Some(z.lock.value);
    }
  }

  lemma {:induction false} RunSnoc(s: State, steps: seq<Step>, step: Step)
    requires Possible(s, steps) && Enabled(Run(s, steps), step)
    ensures Possible(s, steps + [step]) && Run(s, steps + [step]) == Apply(Run(s, steps), step)
    decreases |steps|
  {
    var longer := steps + [step];
    if steps != [] {
      assert longer[0] == steps[0] && longer[1..] == steps[1..] + [step];
      RunSnoc(Apply(s, steps[0]), steps[1..], step);
    } else {
      assert longer[1..] == [];
    }
  }

  lemma Advance(start: State, now: State, steps: seq<Step>, step: Step) returns (after: State, longer: seq<Step>)
    requires Possible(start, steps) && Run(start, steps) == now && Enabled(now, step)
    ensures Possible(start, longer) && Run(start, longer) == after && after == Apply(now, step)
  {
    RunSnoc(start, steps, step);
    after, longer := Apply(now, step), steps + [step];
  }

  // ---------------------------------------------------------------- a pass that nobody interrupts

  /** The pass over the first `n` lines, with tokens that stand still. */
  function ScanAll(block: Block, n: nat, tokens: map<int, Tokens>): Scan
    requires n <= |block|
  {
    if n == 0 then NOTHING_SEEN else ScanLine(ScanAll(block, n - 1, tokens), block[n - 1], tokens)
  }

  function Windows(block: Block, tokens: map<int, Tokens>): seq<Window> { ScanAll(block, |block|, tokens).wins }

  function FocusOf(block: Block, tokens: map<int, Tokens>): int { ScanAll(block, |block|, tokens).focusPid }

  function FocusAsked(focused: seq<nat>, pid: int, tokens: map<int, Tokens>): seq<nat> {
    if pid >= 0 && pid in tokens then focused + [tokens[pid].channel] else focused
  }

  lemma {:induction false} ScanAllFocus(block: Block, n: nat, tokens: map<int, Tokens>)
    requires n <= |block|
    ensures FocusNamed(block, n, ScanAll(block, n, tokens).focusPid)
  {
    if n > 0 {
      ScanAllFocus(block, n - 1, tokens);
      FocusStep(block, n - 1, ScanAll(block, n - 1, tokens), tokens);
    }
  }

  /** A pass that nobody interrupts gives the focus to whom the block's last focus line names. */
  lemma FocusExactly(block: Block, tokens: map<int, Tokens>, focused: seq<nat>)
    ensures FocusGiven(block, tokens, focused, FocusAsked(focused, FocusOf(block, tokens), tokens))
  {
    ScanAllFocus(block, |block|, tokens);
  }

  ghost predicate Stand(ws: seq<Window>, tokens: map<int, Tokens>) {
    forall i | 0 <= i < |ws| :: ws[i].pid in tokens && ws[i].tokens == tokens[ws[i].pid]
  }

  lemma {:induction false} ScanAllOk(block: Block, n: nat, tokens: map<int, Tokens>)
    requires n <= |block|
    ensures ScanOk(block, n, ScanAll(block, n, tokens))
  {
    if n == 0 {
      ScanStart(block);
    } else {
      var before := ScanAll(block, n - 1, tokens);
      ScanAllOk(block, n - 1, tokens);
      ScanStep(block, n - 1, before, tokens);
      assert n - 1 + 1 == n && ScanAll(block, n, tokens) == ScanLine(before, block[n - 1], tokens);
    }
  }

  lemma {:induction false} ScanAllStands(block: Block, n: nat, tokens: map<int, Tokens>)
    requires n <= |block|
    ensures Stand(ScanAll(block, n, tokens).wins, tokens)
  {
    if n > 0 {
      ScanAllStands(block, n - 1, tokens);
    }
  }

  lemma {:induction false} ScanAllShows(block: Block, n: nat, tokens: map<int, Tokens>, pid: int)
    requires n <= |block| && FirstAt(block, pid) < n && pid in tokens
    ensures Shows(ScanAll(block, n, tokens).wins, pid, tokens[pid])
  {
    var before := ScanAll(block, n - 1, tokens);
    ScanAllOk(block, n - 1, tokens);
    if FirstAt(block, pid) < n - 1 {
      ScanAllShows(block, n - 1, tokens, pid);
    }
    LineShows(before, block[n - 1], tokens, pid);
  }

  /** With tokens that stand still, a pass shows each listed pid that has a token, under that token, and no other. */
  lemma WindowsExactly(block: Block, tokens: map<int, Tokens>, pid: int)
    ensures Follows(block, |block|, Windows(block, tokens)) && Stand(Windows(block, tokens), tokens)
    ensures Listed(block, pid) && pid in tokens ==> Shows(Windows(block, tokens), pid, tokens[pid])
  {
    ScanAllOk(block, |block|, tokens);
    ScanAllStands(block, |block|, tokens);
    if Listed(block, pid) && pid in tokens {
      ScanAllShows(block, |block|, tokens, pid);
    }
  }

  /** Lines read by a thread that is inside the feed, while nobody else moves. */
  lemma {:induction false} ReadsAll(start: State, s: State, steps: seq<Step>, t: nat)
    returns (after: State, longer: seq<Step>)
    requires Possible(start, steps) && Run(start, steps) == s
    requires t < |s.threads| && s.threads[t].Feeding? && s.threads[t].at <= |s.threads[t].block|
    requires s.threads[t].scan == ScanAll(s.threads[t].block, s.threads[t].at, s.tokens)
    ensures Possible(start, longer) && Run(start, longer) == after
    ensures var th := s.threads[t];
      after == s.(threads := s.threads[t := th.(at := |th.block|, scan := ScanAll(th.block, |th.block|, s.tokens))])
    decreases |s.threads[t].block| - s.threads[t].at
  {
    after, longer := s, steps;
    var th := s.threads[t];
    if th.at == |th.block| {
      assert s.threads == s.threads[t := th];
    } else {
      var next: State;
      next, longer := Advance(start, s, steps, ReadLine(t));
      assert next.threads[t] == th.(at := th.at + 1, scan := ScanAll(th.block, th.at + 1, s.tokens));
      after, longer := ReadsAll(start, next, longer, t);
    }
  }

  /** The state after thread `t` fed `block`, the block of push `gen`, with nobody in its way. */
  function AfterFeed(s: State, gen: nat, block: Block, t: nat): State
    requires t < |s.threads|
  {
    s.(lock := None, threads := s.threads[t := Idle],
       log := s.log + [Dispatch(|s.log| + 1, gen, Windows(block, s.tokens))],
       focused := FocusAsked(s.focused, FocusOf(block, s.tokens), s.tokens))
  }

  lemma FeedsThrough(start: State, s: State, steps: seq<Step>, t: nat) returns (after: State, longer: seq<Step>)
    requires Possible(start, steps) && Run(start, steps) == s
    requires t < |s.threads| && s.threads[t].Feeding? && s.threads[t].at == 0 && s.threads[t].scan == NOTHING_SEEN
    ensures Possible(start, longer) && Run(start, longer) == after
    ensures after == AfterFeed(s, s.threads[t].gen, s.threads[t].block, t)
  {
    after, longer := ReadsAll(start, s, steps, t);
    after, longer := Advance(start, after, longer, Send(t));
    after, longer := Advance(start, after, longer, SetFocus(t));
  }

  lemma Caches(start: State, s: State, steps: seq<Step>, t: nat, block: Block) returns (after: State, longer: seq<Step>)
    requires Possible(start, steps) && Run(start, steps) == s
    requires t < |s.threads| && s.threads[t].Idle? && s.lock == None && Commit in block
    ensures Possible(start, longer) && Run(start, longer) == after
    ensures after == s.(pushed := s.pushed + [block], lock := Some(t),
                        threads := s.threads[t := Feeding(|s.pushed| + 1, block, 0, NOTHING_SEEN)])
  {
    after, longer := Advance(start, s, steps, Push(t, block));
    after, longer := Advance(start, after, longer, TakePush(t));
    after, longer := Advance(start, after, longer, Cache(t));
  }

  /** A push that nobody interrupts caches its block and dispatches it: what `FeedWindowBlock` does. */
  lemma PushAlone(start: State, s: State, steps: seq<Step>, t: nat, block: Block)
    returns (after: State, longer: seq<Step>)
    requires Possible(start, steps) && Run(start, steps) == s
    requires t < |s.threads| && s.threads[t].Idle? && s.lock == None && Commit in block
    ensures Possible(start, longer) && Run(start, longer) == after
    ensures after == AfterFeed(s.(pushed := s.pushed + [block]), |s.pushed| + 1, block, t)
  {
    after, longer := Caches(start, s, steps, t, block);
    after, longer := FeedsThrough(start, after, longer, t);
  }

  // ---------------------------------------------------------------- a stale last dispatch

  const TWO_IDLE := State(map[], 0, [], None, [Idle, Idle], [], [])
  const SHOWING: Block := [Win(7, Rect(0, 0, 1, 1), true), Commit]
  const CLOSED: Block := [Commit]

  /**
   * The race the copy outside the feed lock leaves open: a host registers, a new block without its window overtakes
   * its re-feed, and at rest the dispatcher's last word still shows the window.
   */
  lemma LastDispatchCanBeStale() returns (steps: seq<Step>)
    ensures Initial(TWO_IDLE) && Possible(TWO_IDLE, steps)
    ensures var z := Run(TWO_IDLE, steps);
      && Quiet(z) && z.pushed == [SHOWING, CLOSED] && |z.log| == 3 && z.log[2].gen == 1
      && 7 in z.tokens && Shows(z.log[2].windows, 7, z.tokens[7]) && !Listed(CLOSED, 7)
  {
    var s: State;
    s, steps := Overtake();
    s, steps := RefedLast(s, steps);
  }

  lemma RefedLast(s: State, steps: seq<Step>) returns (after: State, longer: seq<Step>)
    requires Possible(TWO_IDLE, steps) && Run(TWO_IDLE, steps) == s
    requires s.threads == [Idle, WantRefeed(1, SHOWING)] && s.lock == None && 7 in s.tokens
    ensures Possible(TWO_IDLE, longer) && Run(TWO_IDLE, longer) == after && Quiet(after)
    ensures after.pushed == s.pushed && 7 in after.tokens && |after.log| == |s.log| + 1
    ensures var last := after.log[|s.log|]; last.gen == 1 && Shows(last.windows, 7, after.tokens[7])
  {
    var mid: State;
    mid, longer := Advance(TWO_IDLE, s, steps, TakeRefeed(1));
    after, longer := FeedsThrough(TWO_IDLE, mid, longer, 1);
    ShownStill(s.tokens);
  }

  lemma ShownStill(tokens: map<int, Tokens>)
    requires 7 in tokens
    ensures Shows(Windows(SHOWING, tokens), 7, tokens[7])
  {
    assert Names(SHOWING[0], 7) && FirstAt(SHOWING, 7) == 0;
    WindowsExactly(SHOWING, tokens, 7);
  }

  lemma Overtake() returns (after: State, longer: seq<Step>)
    ensures Possible(TWO_IDLE, longer) && Run(TWO_IDLE, longer) == after
    ensures after.threads == [Idle, WantRefeed(1, SHOWING)] && after.lock == None && 7 in after.tokens
    ensures after.pushed == [SHOWING, CLOSED] && |after.log| == 2
  {
    after, longer := PushAlone(TWO_IDLE, TWO_IDLE, [], 0, SHOWING);
    after, longer := RegisterAndCopy(after, longer);
    assert Commit in CLOSED;
    after, longer := PushAlone(TWO_IDLE, after, longer, 0, CLOSED);
  }

  lemma RegisterAndCopy(s: State, steps: seq<Step>) returns (after: State, longer: seq<Step>)
    requires Possible(TWO_IDLE, steps) && Run(TWO_IDLE, steps) == s
    requires s.threads == [Idle, Idle] && s.lock == None && s.pushed == [SHOWING]
    ensures Possible(TWO_IDLE, longer) && Run(TWO_IDLE, longer) == after
    ensures after.threads == [Idle, WantRefeed(1, SHOWING)] && after.lock == None && 7 in after.tokens
    ensures after.pushed == [SHOWING] && after.log == s.log
  {
    after, longer := Advance(TWO_IDLE, s, steps, Register(1, 7, 0));
    after, longer := Advance(TWO_IDLE, after, longer, Copy(1));
  }

  class InputFeed {
    var tokens: map<int, Tokens>
    var minted: nat
    var last: Option<Block>
    var vsync: nat
    var dispatched: seq<seq<Window>>
    var focused: seq<nat>

    ghost predicate Valid() reads this { vsync == |dispatched| }

    constructor ()
      ensures Valid() && tokens == map[] && last == None && dispatched == [] && focused == []
    {
      tokens, minted, last, vsync, dispatched, focused := map[], 0, None, 0, [], [];
    }

    method RegisterToken(pid: int, channel: nat)
      requires Valid()
      modifies this`tokens, this`minted
      ensures pid in tokens && tokens[pid].channel == channel && tokens - {pid} == old(tokens) - {pid}
      ensures pid in old(tokens) ==> tokens[pid].application == old(tokens)[pid].application && minted == old(minted)
      ensures pid !in old(tokens) ==> tokens[pid].application == old(minted) && minted == old(minted) + 1
    {
      if pid in tokens {
        tokens := tokens[pid := Tokens(channel, tokens[pid].application)];
      } else {
        tokens := tokens[pid := Tokens(channel, minted)];
        minted := minted + 1;
      }
    }

    method UnregisterToken(pid: int)
      requires Valid()
      modifies this`tokens
      ensures tokens == old(tokens) - {pid}
    {
      tokens := tokens - {pid};
    }

    /** Caches the block if asked to, dispatches what it lists, and asks for the focus. */
    method FeedWindowBlock(lines: Block, cache: bool)
      requires Valid()
      modifies this`last, this`vsync, this`dispatched, this`focused
      ensures Valid() && last == if cache then Some(lines) else old(last)
      ensures dispatched == old(dispatched) + [Windows(lines, tokens)]
      ensures focused == FocusAsked(old(focused), FocusOf(lines, tokens), tokens)
      ensures FocusGiven(lines, tokens, old(focused), focused)
    {
      if cache {
        last := Some(lines);
      }
      var wins: seq<Window>, seen: set<int>, focusPid: int := [], {}, -1;
      var i := 0;
      while i < |lines|
        invariant i <= |lines| && Scan(seen, wins, focusPid) == ScanAll(lines, i, tokens)
        invariant last == if cache then Some(lines) else old(last)
        invariant dispatched == old(dispatched) && focused == old(focused) && vsync == old(vsync)
      {
        match lines[i] {
          case Win(pid, rect, focusable) =>
            if pid !in seen {
              seen := seen + {pid};
              if pid in tokens {
                wins := wins + [Window(pid, tokens[pid], rect, focusable)];
              }
            }
          case Focus(pid) => focusPid := pid;
          case _ =>
        }
        i := i + 1;
      }
      vsync := vsync + 1;
      dispatched := dispatched + [wins];
      if focusPid >= 0 && focusPid in tokens {
        focused := focused + [tokens[focusPid].channel];
      }
      FocusExactly(lines, tokens, old(focused));
    }

    method RefeedLastBlock()
      requires Valid()
      modifies this`vsync, this`dispatched, this`focused, this`last
      ensures Valid() && last == old(last)
      ensures dispatched == if last.Some? && last.value != []
                            then old(dispatched) + [Windows(last.value, tokens)] else old(dispatched)
      ensures if last.Some? then FocusGiven(last.value, tokens, old(focused), focused) else focused == old(focused)
    {
      if last.Some? && last.value != [] {
        FeedWindowBlock(last.value, false);
      }
    }

    /** A registration shows the window at once if the cached block lists its pid; without a token it does nothing. */
    method OnRegister(pid: int, token: Option<nat>)
      requires Valid()
      modifies this
      ensures Valid() && last == old(last)
      ensures token.None? ==> tokens == old(tokens) && dispatched == old(dispatched) && focused == old(focused)
      ensures token.Some? ==> pid in tokens && tokens[pid].channel == token.value
      ensures token.Some? && last.Some? && Listed(last.value, pid) ==>
           && |dispatched| == |old(dispatched)| + 1
           && Shows(dispatched[|old(dispatched)|], pid, tokens[pid])
           && Follows(last.value, |last.value|, dispatched[|old(dispatched)|])
      ensures token.Some? && last.Some? ==> FocusGiven(last.value, tokens, old(focused), focused)
    {
      if token.None? {
        return;
      }
      RegisterToken(pid, token.value);
      RefeedLastBlock();
      if last.Some? {
        WindowsExactly(last.value, tokens, pid);
      }
    }

    /** What the listener read from one connection: fed if it was completed, dropped if it was cut off. */
    method Receive(lines: Block)
      requires Valid()
      modifies this`last, this`vsync, this`dispatched, this`focused
      ensures Valid() && last == if Commit in lines then Some(lines) else old(last)
      ensures dispatched == if Commit in lines then old(dispatched) + [Windows(lines, tokens)] else old(dispatched)
      ensures if Commit in lines then FocusGiven(lines, tokens, old(focused), focused) else focused == old(focused)
    {
      if Commit in lines {
        FeedWindowBlock(lines, true);
      }
    }
  }
}
