/**
 Rewriting the append only file in the background: the parent keeps logging and
 passes what it logs to the child through a pipe; the child writes the data set
 it was forked with and appends what it received; the parent appends the rest.
 */
module AofRewrite {
  import opened Wrappers
  import opened AofCodec
  import opened AofFlush

  // ----- records and the databases they run in -----

  /** What feedAppendOnlyFile puts into the log: a command, or the SELECT it puts before one. */
  datatype Record = Select(db: nat) | Run(cmd: Command)

  const SELECT: seq<Byte> := [83, 69, 76, 69, 67, 84]

  function ToCommand(r: Record): Command {
    match r
    case Select(db) => [SELECT, Decimal(db)]
    case Run(cmd) => cmd
  }

  function ToCommands(rs: seq<Record>): (cs: seq<Command>)
    ensures |cs| == |rs| && forall i :: 0 <= i < |rs| ==> cs[i] == ToCommand(rs[i])
  {
    seq(|rs|, i requires 0 <= i < |rs| => ToCommand(rs[i]))
  }

  function EncodeLog(rs: seq<Record>): seq<Byte> { EncodeAll(ToCommands(rs)) }

  lemma {:induction false} EncodeLogAppend(a: seq<Record>, b: seq<Record>)
    ensures EncodeLog(a + b) == EncodeLog(a) + EncodeLog(b)
  {
    hide EncodeAll;
    EncodeAllAppend(ToCommands(a), ToCommands(b));
    assert ToCommands(a + b) == ToCommands(a) + ToCommands(b);
  }

  /** The database that is selected after the records. */
  function DbAfter(d: nat, rs: seq<Record>): nat
    decreases |rs|
  {
    if rs == [] then d else DbAfter(if rs[0].Select? then rs[0].db else d, rs[1..])
  }

  /** The commands of the log, each with the database it runs in when replayed from database d. */
  function Replayed(d: nat, rs: seq<Record>): seq<(nat, Command)>
    decreases |rs|
  {
    if rs == [] then []
    else if rs[0].Select? then Replayed(rs[0].db, rs[1..])
    else [(d, rs[0].cmd)] + Replayed(d, rs[1..])
  }

  lemma {:induction false} ReplayedAppend(d: nat, a: seq<Record>, b: seq<Record>)
    ensures DbAfter(d, a + b) == DbAfter(DbAfter(d, a), b)
    ensures Replayed(d, a + b) == Replayed(d, a) + Replayed(DbAfter(d, a), b)
    decreases |a|
  {
    if a == [] {
      assert a + b == b;
    } else {
      ReplayedAppend(if a[0].Select? then a[0].db else d, a[1..], b);
      assert (a + b)[1..] == a[1..] + b;
    }
  }

  function Runs(cmds: seq<Command>): (rs: seq<Record>)
    ensures |rs| == |cmds| && forall i :: 0 <= i < |cmds| ==> rs[i] == Run(cmds[i])
  {
    seq(|cmds|, i requires 0 <= i < |cmds| => Run(cmds[i]))
  }

  function InDb(db: nat, cmds: seq<Command>): (r: seq<(nat, Command)>)
    ensures |r| == |cmds| && forall i :: 0 <= i < |cmds| ==> r[i] == (db, cmds[i])
  {
    seq(|cmds|, i requires 0 <= i < |cmds| => (db, cmds[i]))
  }

  /** feedAppendOnlyFile: the commands a call is translated to, after a SELECT if the database changed. */
  function Fed(selected: int, db: nat, cmds: seq<Command>): seq<Record> {
    (if db != selected then [Select(db)] else []) + Runs(cmds)
  }

  lemma {:induction false} RunsReplayed(db: nat, cmds: seq<Command>)
    ensures DbAfter(db, Runs(cmds)) == db && Replayed(db, Runs(cmds)) == InDb(db, cmds)
    decreases |cmds|
  {
    if cmds != [] {
      RunsReplayed(db, cmds[1..]);
      assert Runs(cmds)[1..] == Runs(cmds[1..]);
      assert InDb(db, cmds) == [(db, cmds[0])] + InDb(db, cmds[1..]);
    }
  }

  lemma {:induction false} FedReplayed(d: nat, selected: int, db: nat, cmds: seq<Command>)
    requires selected != -1 ==> d == selected
    ensures DbAfter(d, Fed(selected, db, cmds)) == db && Replayed(d, Fed(selected, db, cmds)) == InDb(db, cmds)
  {
    RunsReplayed(db, cmds);
    if db == selected {
      assert Fed(selected, db, cmds) == Runs(cmds);
    } else {
      assert Fed(selected, db, cmds)[1..] == Runs(cmds);
    }
  }

  /** Replayed from any database, the records run the given commands, each in its own; selected is the database they end in, if known. */
  ghost predicate Tracks(rs: seq<Record>, selected: int, cmds: seq<(nat, Command)>) {
    && (forall d: nat :: Replayed(d, rs) == cmds)
    && (selected != -1 ==> forall d: nat :: DbAfter(d, rs) == selected)
  }

  lemma {:induction false} TracksNothing()
    ensures Tracks([], -1, [])
  {
  }

  lemma {:induction false} TracksForgets(rs: seq<Record>, selected: int, cmds: seq<(nat, Command)>)
    requires Tracks(rs, selected, cmds)
    ensures Tracks(rs, -1, cmds)
  {
    hide Replayed, DbAfter;
  }

  lemma {:induction false} TracksFed(rs: seq<Record>, selected: int, cmds: seq<(nat, Command)>, db: nat, added: seq<Command>)
    requires Tracks(rs, selected, cmds)
    ensures Tracks(rs + Fed(selected, db, added), db, cmds + InDb(db, added))
  {
    hide Replayed, DbAfter, Fed, InDb;
    forall d: nat ensures DbAfter(d, rs + Fed(selected, db, added)) == db && Replayed(d, rs + Fed(selected, db, added)) == cmds + InDb(db, added) {
      ReplayedAppend(d, rs, Fed(selected, db, added));
      FedReplayed(DbAfter(d, rs), selected, db, added);
      assert Replayed(d, rs) == cmds;
    }
  }

  // ----- the databases, read from the commands of a loaded file -----

  /** The word SELECT, in upper or lower case. */
  predicate NamesSelect(word: seq<Byte>) {
    && |word| == 6
    && word[0] in {83, 115} && word[1] in {69, 101} && word[2] in {76, 108}
    && word[3] in {69, 101} && word[4] in {67, 99} && word[5] in {84, 116}
  }

  predicate IsSelect(c: Command) { |c| >= 2 && NamesSelect(c[0]) }

  /** The database a command leaves selected: SELECT reads its number, a negative one is refused. */
  function SelectedBy(d: nat, c: Command): nat { if IsSelect(c) && ToInt(c[1]) >= 0 then ToInt(c[1]) else d }

  function SelectedAfter(d: nat, cmds: seq<Command>): nat
    decreases |cmds|
  {
    if cmds == [] then d else SelectedAfter(SelectedBy(d, cmds[0]), cmds[1..])
  }

  /** What a loader runs: every command but SELECT, each in the database selected by then. */
  function RunCommands(d: nat, cmds: seq<Command>): seq<(nat, Command)>
    decreases |cmds|
  {
    if cmds == [] then []
    else (if IsSelect(cmds[0]) then [] else [(d, cmds[0])]) + RunCommands(SelectedBy(d, cmds[0]), cmds[1..])
  }

  lemma {:induction false} RunCommandsAppend(d: nat, a: seq<Command>, b: seq<Command>)
    ensures RunCommands(d, a + b) == RunCommands(d, a) + RunCommands(SelectedAfter(d, a), b)
    decreases |a|
  {
    hide IsSelect, SelectedBy;
    if a == [] {
      assert a + b == b;
    } else {
      var e := SelectedBy(d, a[0]);
      RunCommandsAppend(e, a[1..], b);
      assert (a + b)[1..] == a[1..] + b && (a + b)[0] == a[0];
      RunsJoin(if IsSelect(a[0]) then [] else [(d, a[0])], RunCommands(e, a[1..]), RunCommands(SelectedAfter(e, a[1..]), b));
    }
  }

  lemma {:induction false} RunsJoin(x: seq<(nat, Command)>, y: seq<(nat, Command)>, z: seq<(nat, Command)>)
    ensures x + (y + z) == x + y + z
  {
  }

  /** A record the log can hold: a database number of an int, or a command that fits and is not itself a SELECT. */
  predicate Good(r: Record) {
    match r
    case Select(db) => db <= INT_MAX
    case Run(cmd) => Fits(cmd) && !NamesSelect(cmd[0])
  }

  ghost predicate AllGood(rs: seq<Record>) { forall i :: 0 <= i < |rs| ==> Good(rs[i]) }

  /** The SELECT that is logged selects the database it is logged for. */
  lemma {:induction false} SelectSelects(d: nat, db: nat)
    ensures IsSelect(ToCommand(Select(db))) && SelectedBy(d, ToCommand(Select(db))) == db
  {
    NumberRead(db, []);
    assert Decimal(db) + [] == Decimal(db);
  }

  lemma {:induction false} GoodFits(r: Record)
    requires Good(r)
    ensures Fits(ToCommand(r))
  {
    if r.Select? { LengthBound(r.db); }
    hide Decimal;
  }

  /** The commands of the log run as its records say. */
  lemma {:induction false} CommandsReplay(d: nat, rs: seq<Record>)
    requires AllGood(rs)
    ensures RunCommands(d, ToCommands(rs)) == Replayed(d, rs)
    decreases |rs|
  {
    hide IsSelect, SelectedBy;
    if rs != [] {
      var c := ToCommand(rs[0]);
      assert ToCommands(rs)[0] == c && ToCommands(rs)[1..] == ToCommands(rs[1..]);
      if rs[0].Select? { SelectSelects(d, rs[0].db); } else { PlainCommand(d, rs[0]); }
      CommandsReplay(SelectedBy(d, c), rs[1..]);
    }
  }

  lemma {:induction false} PlainCommand(d: nat, r: Record)
    requires Good(r) && r.Run?
    ensures !IsSelect(ToCommand(r)) && SelectedBy(d, ToCommand(r)) == d
  {
  }

  // ----- the processes -----

  /** Where the child is: writing, after its '!', after the answer, done, or gone with an error. */
  datatype Phase = Writing | Asked | Told | Exited | Failed

  /** The data set it was forked with, as it writes it; what it read from the pipe; its file. */
  datatype Child = Child(phase: Phase, snapshot: seq<Byte>, diff: seq<Byte>, temp: seq<Byte>)

  /** aof_state is ON or WAIT_REWRITE; ask and ack count the '!' in the two control pipes. */
  datatype Server = Server(on: bool, log: Log, selected: int, child: Option<Child>,
                           residual: seq<Byte>, stop: bool, data: seq<Byte>, ask: nat, ack: nat)

  datatype Step =
    | Feed(db: nat, cmds: seq<Command>)       // a call is propagated
    | Flush(policy: Policy, call: Call)
    | Fork(snapshot: seq<Byte>)
    | Send(n: nat)                            // n bytes of the rewrite buffer go into the data pipe
    | ChildReads(n: nat)
    | ChildAsks
    | ParentAnswers(delivered: bool)          // the answer may be lost
    | ChildHears
    | ChildFinishes
    | ChildFails
    | Done(written: bool)                     // the parent learns that the child is gone

  /** The rewrite succeeds: the child ended well and the rest of the buffer was written to its file. */
  predicate Succeeds(s: Server, step: Step) {
    step.Done? && step.written && s.child.Some? && s.child.value.phase == Exited
  }

  predicate Enabled(s: Server, step: Step) {
    match step
    case Feed(_, _) => true
    case Flush(p, c) => !Exits(s.log, p, c)
    case Fork(_) => s.child.None?
    case Send(n) => s.child.Some? && !s.stop && n <= |s.residual|
    case ChildReads(n) => s.child.Some? && s.child.value.phase in {Writing, Asked, Told} && n <= |s.data|
    case ChildAsks => s.child.Some? && s.child.value.phase == Writing
    case ParentAnswers(_) => s.ask > 0
    case ChildHears => s.child.Some? && s.child.value.phase == Asked && s.ack > 0
    case ChildFinishes => s.child.Some? && s.child.value.phase == Told
    case ChildFails => s.child.Some? && s.child.value.phase != Exited
    case Done(_) => s.child.Some? && s.child.value.phase in {Exited, Failed}
  }

  function Next(s: Server, step: Step): Server
    requires Enabled(s, step)
  {
    match step
    case Feed(db, cmds) =>
      var bytes := EncodeLog(Fed(s.selected, db, cmds));
      s.(selected := db,
         log := if s.on then s.log.(buf := s.log.buf + bytes) else s.log,
         residual := if s.child.Some? then s.residual + bytes else s.residual)
    case Flush(p, c) => s.(log := AfterFlush(s.log, p, c))
    case Fork(snapshot) =>
      s.(child := Some(Child(Writing, snapshot, [], [])), selected := -1, stop := false, data := [], ask := 0, ack := 0)
    case Send(n) => s.(data := s.data + s.residual[..n], residual := s.residual[n..])
    case ChildReads(n) =>
      s.(data := s.data[n..], child := Some(s.child.value.(diff := s.child.value.diff + s.data[..n])))
    case ChildAsks => s.(ask := s.ask + 1, child := Some(s.child.value.(phase := Asked)))
    case ParentAnswers(delivered) => s.(ask := s.ask - 1, stop := true, ack := if delivered then s.ack + 1 else s.ack)
    case ChildHears => s.(ack := s.ack - 1, child := Some(s.child.value.(phase := Told)))
    case ChildFinishes =>
      var c := s.child.value;
      s.(data := [], child := Some(c.(phase := Exited, diff := c.diff + s.data, temp := c.snapshot + (c.diff + s.data))))
    case ChildFails => s.(child := Some(s.child.value.(phase := Failed)))
    case Done(written) =>
      var clean := s.(child := None, residual := [], data := [], ask := 0, ack := 0);
      if Succeeds(s, step) then
        var file := s.child.value.temp + s.residual;
        clean.(on := true, selected := -1, log := s.log.(file := file, buf := [], size := |file|))
      else clean
  }

  // ----- runs -----

  /** AOF is on with a loaded file, or waits for its first rewrite. */
  ghost predicate Init(s: Server) {
    s.child.None? && s.residual == [] && s.selected == -1 && LogOk(s.log) && s.log.buf == [] && s.ask == 0 && s.ack == 0
  }

  ghost predicate IsRun(ss: seq<Server>, steps: seq<Step>) {
    && |ss| == |steps| + 1 && Init(ss[0])
    && forall i :: 0 <= i < |steps| ==> Enabled(ss[i], steps[i]) && ss[i + 1] == Next(ss[i], steps[i])
  }

  /** The commands fed by steps i up to j, each with its database. */
  function FedBetween(steps: seq<Step>, i: nat, j: nat): seq<(nat, Command)>
    requires i <= j <= |steps|
  {
    if i == j then []
    else FedBetween(steps, i, j - 1) + if steps[j - 1].Feed? then InDb(steps[j - 1].db, steps[j - 1].cmds) else []
  }

  /** What is fed fits the format, and no SELECT is fed: it is not propagated. */
  ghost predicate GoodSteps(steps: seq<Step>) {
    forall i :: 0 <= i < |steps| && steps[i].Feed? ==>
      steps[i].db <= INT_MAX && forall k :: 0 <= k < |steps[i].cmds| ==> Good(Run(steps[i].cmds[k]))
  }

  lemma {:induction false} FedIsGood(selected: int, db: nat, cmds: seq<Command>, rs: seq<Record>)
    requires AllGood(rs) && db <= INT_MAX && forall k :: 0 <= k < |cmds| ==> Good(Run(cmds[k]))
    ensures AllGood(rs + Fed(selected, db, cmds))
  {
    hide Fits, NamesSelect;
    var all := rs + Fed(selected, db, cmds);
    var n := |all| - |cmds|;
    forall i | 0 <= i < |all| ensures Good(all[i]) {
      if i >= n { assert all[i] == Run(cmds[i - n]); }
    }
  }

  // ----- what a rewrite in progress keeps -----

  /** Nothing fed since the fork is lost, doubled or out of order: it is what the child has, what is in the pipe, and what waits. */
  ghost predicate RewriteInv(s: Server, rs: seq<Record>) {
    && s.child.Some?
    && s.child.value.diff + s.data + s.residual == EncodeLog(rs)
    && (s.ack > 0 || s.child.value.phase in {Told, Exited} ==> s.stop)
    && (s.child.value.phase == Exited ==> s.data == [] && s.child.value.temp == s.child.value.snapshot + s.child.value.diff)
  }

  lemma {:induction false} ForkStarts(s: Server, snapshot: seq<Byte>)
    requires Enabled(s, Fork(snapshot)) && s.residual == []
    ensures var r := Next(s, Fork(snapshot));
            RewriteInv(r, []) && r.child.Some? && r.child.value.snapshot == snapshot && Tracks([], r.selected, [])
  {
  }

  /** Each step of parent or child keeps it, a step that feeds with the records fed. */
  lemma {:induction false} RewriteStep(s: Server, step: Step, rs: seq<Record>)
    requires RewriteInv(s, rs) && Enabled(s, step) && !step.Done?
    ensures RewriteInv(Next(s, step), if step.Feed? then rs + Fed(s.selected, step.db, step.cmds) else rs)
    ensures var r := Next(s, step);
            r.child.Some? && r.child.value.snapshot == s.child.value.snapshot && r.selected == if step.Feed? then step.db else s.selected
  {
    hide EncodeLog, Fed, AfterFlush;
    var c := s.child.value;
    match step
    case Feed(db, cmds) =>
      EncodeLogAppend(rs, Fed(s.selected, db, cmds));
      var more := EncodeLog(Fed(s.selected, db, cmds));
      assert c.diff + s.data + (s.residual + more) == (c.diff + s.data + s.residual) + more;
    case Send(n) => assert c.diff + (s.data + s.residual[..n]) + s.residual[n..] == c.diff + s.data + s.residual;
    case ChildReads(n) => assert c.diff + s.data[..n] + s.data[n..] + s.residual == c.diff + s.data + s.residual;
    case ChildFinishes => assert c.diff + s.data + [] + s.residual == c.diff + s.data + s.residual;
    case _ =>
  }

  lemma {:induction false} RewriteEnds(s: Server, rs: seq<Record>)
    requires RewriteInv(s, rs) && Succeeds(s, Done(true)) && Enabled(s, Done(true))
    ensures var r := Next(s, Done(true));
            r.log.file == s.child.value.snapshot + EncodeLog(rs) && r.log.buf == [] && LogOk(r.log) && r.on && r.selected == -1 && r.child.None?
  {
    hide EncodeLog;
    var c := s.child.value;
    assert c.diff + [] + s.residual == c.diff + s.residual;
    assert c.snapshot + c.diff + s.residual == c.snapshot + (c.diff + s.residual);
  }

  // ----- whole runs -----

  lemma {:induction false} BufferEmptyWhenIdle(ss: seq<Server>, steps: seq<Step>, k: nat)
    requires IsRun(ss, steps) && k < |ss|
    ensures ss[k].child.None? ==> ss[k].residual == []
    ensures LogOk(ss[k].log)
    decreases k
  {
    hide EncodeLog, Fed, AfterFlush;
    if k > 0 {
      BufferEmptyWhenIdle(ss, steps, k - 1);
      assert ss[k - 1 + 1] == Next(ss[k - 1], steps[k - 1]);
      if steps[k - 1].Flush? { FlushConserves(ss[k - 1].log, steps[k - 1].policy, steps[k - 1].call); }
    }
  }

  /** The exchange of '!': asked once and answered once, by a parent that sends no more. */
  ghost predicate PipesOk(s: Server) {
    && s.ask + s.ack <= 1
    && (s.child.None? || s.child.value.phase in {Writing, Told, Exited} ==> s.ask == 0 && s.ack == 0)
    && (s.child.Some? && s.child.value.phase == Writing ==> !s.stop)
    && (s.child.Some? && s.child.value.phase == Asked ==> (s.ask == 1 <==> !s.stop))
    && (s.child.Some? && s.child.value.phase in {Told, Exited} ==> s.stop)
  }

  /** In every run at most one '!' is on its way, and the child ends well only after the parent has stopped sending. */
  lemma {:induction false} OneExchange(ss: seq<Server>, steps: seq<Step>, k: nat)
    requires IsRun(ss, steps) && k < |ss|
    ensures PipesOk(ss[k])
    decreases k
  {
    hide EncodeLog, Fed, AfterFlush, Exits;
    if k > 0 {
      OneExchange(ss, steps, k - 1);
      assert ss[k - 1 + 1] == Next(ss[k - 1], steps[k - 1]);
    }
  }

  /** The state after the steps, if each of them is enabled when it is taken. */
  function After(s: Server, steps: seq<Step>): Option<Server>
    decreases |steps|
  {
    if steps == [] then Some(s) else if Enabled(s, steps[0]) then After(Next(s, steps[0]), steps[1..]) else None
  }

  lemma {:induction false} AfterFirst(s: Server, step: Step, steps: seq<Step>)
    requires Enabled(s, step)
    ensures After(s, [step] + steps) == After(Next(s, step), steps)
  {
    hide Enabled, Next;
    assert ([step] + steps)[1..] == steps;
  }

  /**
   A child that is still writing can always bring the rewrite to its end: it asks, is
   answered, hears the answer and finishes, and the parent then switches to its file.
   */
  lemma {:induction false} RewriteCanSucceed(s: Server)
    requires s.child.Some? && s.child.value.phase == Writing
    ensures var r := After(s, [ChildAsks, ParentAnswers(true), ChildHears, ChildFinishes]);
            && r.Some? && r.value.child.Some? && Enabled(r.value, Done(true)) && Succeeds(r.value, Done(true)) && r.value.stop
            && r.value.child.value.temp == s.child.value.snapshot + s.child.value.diff + s.data
            && Next(r.value, Done(true)).log.file == s.child.value.snapshot + s.child.value.diff + s.data + s.residual
  {
    var s1 := Next(s, ChildAsks);
    var s2 := Next(s1, ParentAnswers(true));
    var s3 := Next(s2, ChildHears);
    var s4 := Next(s3, ChildFinishes);
    var c := s.child.value;
    assert c.snapshot + (c.diff + s.data) == c.snapshot + c.diff + s.data;
    AfterFirst(s3, ChildFinishes, []);
    AfterFirst(s2, ChildHears, [ChildFinishes]);
    AfterFirst(s1, ParentAnswers(true), [ChildHears, ChildFinishes]);
    AfterFirst(s, ChildAsks, [ParentAnswers(true), ChildHears, ChildFinishes]);
    assert [ChildAsks] + [ParentAnswers(true), ChildHears, ChildFinishes] == [ChildAsks, ParentAnswers(true), ChildHears, ChildFinishes];
    assert [ParentAnswers(true)] + [ChildHears, ChildFinishes] == [ParentAnswers(true), ChildHears, ChildFinishes];
    assert [ChildHears] + [ChildFinishes] == [ChildHears, ChildFinishes];
    assert [ChildFinishes] + [] == [ChildFinishes] && After(s4, []) == Some(s4);
  }

  /** A child that has not ended well may fail at any time; the parent then forgets the rewrite, and log and settings stay. */
  lemma {:induction false} RewriteMayFail(s: Server, written: bool)
    requires s.child.Some? && s.child.value.phase != Exited
    ensures var r := After(s, [ChildFails, Done(written)]);
            r.Some? && r.value == s.(child := None, residual := [], data := [], ask := 0, ack := 0)
  {
    var s1 := Next(s, ChildFails);
    AfterFirst(s1, Done(written), []);
    AfterFirst(s, ChildFails, [Done(written)]);
    assert [ChildFails] + [Done(written)] == [ChildFails, Done(written)] && [Done(written)] + [] == [Done(written)];
    assert After(Next(s1, Done(written)), []) == Some(Next(s1, Done(written)));
  }

  /** An answer that is lost leaves the child waiting: it cannot hear it, and can only fail. */
  lemma {:induction false} LostAnswer(s: Server)
    requires PipesOk(s) && s.child.Some? && s.child.value.phase == Asked && s.ask == 1
    ensures var r := Next(s, ParentAnswers(false));
            && r.stop && !Enabled(r, ChildHears) && !Enabled(r, ChildFinishes) && !Enabled(r, ParentAnswers(true)) && Enabled(r, ChildFails)
  {
  }

  /** A forced flush whose write is complete brings the whole log to the file. */
  lemma {:induction false} FlushReachesFile(s: Server, p: Policy, c: Call)
    requires c.force && c.result >= |s.log.buf| && LogOk(s.log)
    ensures Enabled(s, Flush(p, c)) && var r := Next(s, Flush(p, c)); r.log.file == s.log.file + s.log.buf && r.log.buf == [] && r == s.(log := r.log)
  {
    hide AfterFlush, Exits;
    ExitsIff(s.log, p, c);
    FlushWrites(s.log, p, c);
  }

  lemma {:induction false} FedMore(steps: seq<Step>, i: nat, j: nat)
    requires i <= j < |steps|
    ensures FedBetween(steps, i, j + 1) == FedBetween(steps, i, j) + if steps[j].Feed? then InDb(steps[j].db, steps[j].cmds) else []
  {
  }

  lemma {:induction false} FedNothing(steps: seq<Step>, i: nat)
    requires i <= |steps|
    ensures FedBetween(steps, i, i) == []
  {
  }

  lemma {:induction false} FedJoins(steps: seq<Step>, i: nat, j: nat, k: nat)
    requires i <= j <= k <= |steps|
    ensures FedBetween(steps, i, k) == FedBetween(steps, i, j) + FedBetween(steps, j, k)
    decreases k
  {
    if j < k {
      FedJoins(steps, i, j, k - 1);
      var more := if steps[k - 1].Feed? then InDb(steps[k - 1].db, steps[k - 1].cmds) else [];
      assert FedBetween(steps, i, j) + FedBetween(steps, j, k - 1) + more == FedBetween(steps, i, j) + (FedBetween(steps, j, k - 1) + more);
    }
  }

  /** A rewrite forked by step i and still running in state k. */
  ghost predicate Rewriting(steps: seq<Step>, i: nat, k: nat) {
    i < k <= |steps| && steps[i].Fork? && forall m :: i < m < k ==> !steps[m].Done?
  }

  lemma {:induction false} WhileRewriting(ss: seq<Server>, steps: seq<Step>, i: nat, k: nat) returns (rs: seq<Record>)
    requires IsRun(ss, steps) && Rewriting(steps, i, k)
    ensures RewriteInv(ss[k], rs) && Tracks(rs, ss[k].selected, FedBetween(steps, i + 1, k))
    ensures ss[k].child.Some? && ss[k].child.value.snapshot == steps[i].snapshot
    ensures GoodSteps(steps) ==> AllGood(rs)
    decreases k
  {
    hide Tracks, Fed, InDb, FedBetween, EncodeLog, AfterFlush, Next, RewriteInv;
    if k == i + 1 {
      BufferEmptyWhenIdle(ss, steps, i);
      ForkStarts(ss[i], steps[i].snapshot);
      FedNothing(steps, k);
      rs := [];
    } else {
      var m := k - 1;
      var before := WhileRewriting(ss, steps, i, m);
      assert ss[m + 1] == Next(ss[m], steps[m]);
      RewriteStep(ss[m], steps[m], before);
      FedMore(steps, i + 1, m);
      if steps[m].Feed? {
        TracksFed(before, ss[m].selected, FedBetween(steps, i + 1, m), steps[m].db, steps[m].cmds);
        if GoodSteps(steps) { FedIsGood(ss[m].selected, steps[m].db, steps[m].cmds, before); }
        rs := before + Fed(ss[m].selected, steps[m].db, steps[m].cmds);
      } else {
        assert FedBetween(steps, i + 1, m) + [] == FedBetween(steps, i + 1, m);
        rs := before;
      }
    }
  }

  /**
   In every interleaving, a rewrite that succeeds leaves the snapshot followed by
   every record fed since the fork, once and in order, and those records run each
   command fed since the fork in its own database, whatever the snapshot left
   selected.
   */
  lemma {:induction false} RewriteIsExact(ss: seq<Server>, steps: seq<Step>, i: nat, j: nat) returns (rs: seq<Record>)
    requires IsRun(ss, steps) && Rewriting(steps, i, j) && j < |steps| && Succeeds(ss[j], steps[j])
    ensures var r := ss[j + 1];
            r.log.file == steps[i].snapshot + EncodeLog(rs) && r.log.buf == [] && LogOk(r.log) && r.on && r.selected == -1
    ensures forall d: nat :: Replayed(d, rs) == FedBetween(steps, i + 1, j)
    ensures GoodSteps(steps) ==> AllGood(rs) && forall d: nat :: RunCommands(d, ToCommands(rs)) == FedBetween(steps, i + 1, j)
  {
    hide EncodeLog, Replayed, DbAfter, FedBetween, Fed, RunCommands, ToCommands, GoodSteps, AllGood;
    rs := WhileRewriting(ss, steps, i, j);
    assert ss[j + 1] == Next(ss[j], steps[j]);
    RewriteEnds(ss[j], rs);
    if AllGood(rs) {
      forall d: nat ensures RunCommands(d, ToCommands(rs)) == Replayed(d, rs) { CommandsReplay(d, rs); }
    }
  }

  // ----- the log as a whole -----

  /** From a point where no database is known to be selected, up to k, no rewrite succeeds. */
  ghost predicate Logging(ss: seq<Server>, steps: seq<Step>, i: nat, k: nat)
    requires |ss| == |steps| + 1
  {
    i <= k < |ss| && ss[i].on && ss[i].selected == -1 && forall m :: i <= m < k ==> !Succeeds(ss[m], steps[m])
  }

  lemma {:induction false} LogStep(s: Server, step: Step, rs: seq<Record>, cmds: seq<(nat, Command)>, base: seq<Byte>)
    requires Enabled(s, step) && s.on && LogOk(s.log) && !Succeeds(s, step)
    requires s.log.file + s.log.buf == base + EncodeLog(rs) && Tracks(rs, s.selected, cmds)
    ensures var r := Next(s, step);
            var rs' := if step.Feed? then rs + Fed(s.selected, step.db, step.cmds) else rs;
            && r.on && r.log.file + r.log.buf == base + EncodeLog(rs')
            && Tracks(rs', r.selected, cmds + if step.Feed? then InDb(step.db, step.cmds) else [])
  {
    hide EncodeLog, Fed, AfterFlush, InDb, Tracks;
    assert cmds + [] == cmds;
    match step
    case Feed(db, added) =>
      TracksFed(rs, s.selected, cmds, db, added);
      EncodeLogAppend(rs, Fed(s.selected, db, added));
      var more := EncodeLog(Fed(s.selected, db, added));
      assert s.log.file + (s.log.buf + more) == (s.log.file + s.log.buf) + more;
      assert base + EncodeLog(rs) + more == base + (EncodeLog(rs) + more);
    case Flush(p, c) => FlushConserves(s.log, p, c);
    case Fork(_) => TracksForgets(rs, s.selected, cmds);
    case _ =>
  }

  /** While no rewrite succeeds, file and buffer together grow by exactly the records fed, through every outcome of every write. */
  lemma {:induction false} LogIsExact(ss: seq<Server>, steps: seq<Step>, i: nat, k: nat) returns (rs: seq<Record>)
    requires IsRun(ss, steps) && Logging(ss, steps, i, k)
    ensures ss[k].on && LogOk(ss[k].log) && ss[k].log.file + ss[k].log.buf == ss[i].log.file + ss[i].log.buf + EncodeLog(rs)
    ensures Tracks(rs, ss[k].selected, FedBetween(steps, i, k))
    ensures GoodSteps(steps) ==> AllGood(rs)
    decreases k
  {
    BufferEmptyWhenIdle(ss, steps, k);
    if k == i {
      TracksNothing();
      rs := [];
      assert EncodeLog(rs) == [];
      assert ss[i].log.file + ss[i].log.buf + [] == ss[i].log.file + ss[i].log.buf;
    } else {
      hide Tracks, Fed, InDb, FedBetween, EncodeLog, AfterFlush;
      var m := k - 1;
      var before := LogIsExact(ss, steps, i, m);
      assert ss[m + 1] == Next(ss[m], steps[m]);
      LogStep(ss[m], steps[m], before, FedBetween(steps, i, m), ss[i].log.file + ss[i].log.buf);
      FedMore(steps, i, m);
      rs := if steps[m].Feed? then before + Fed(ss[m].selected, steps[m].db, steps[m].cmds) else before;
      if steps[m].Feed? && GoodSteps(steps) { FedIsGood(ss[m].selected, steps[m].db, steps[m].cmds, before); }
    }
  }

  /**
   After a rewrite, and until another one succeeds: the log is the snapshot and
   everything fed since the fork, before the switch and after it, each command in
   its own database.
   */
  lemma {:induction false} LogAfterRewrite(ss: seq<Server>, steps: seq<Step>, i: nat, j: nat, k: nat) returns (rs: seq<Record>)
    requires IsRun(ss, steps) && Rewriting(steps, i, j) && j < |steps| && Succeeds(ss[j], steps[j])
    requires j < k < |ss| && forall m :: j < m < k ==> !Succeeds(ss[m], steps[m])
    ensures ss[k].log.file + ss[k].log.buf == steps[i].snapshot + EncodeLog(rs) && ss[k].log.size == |ss[k].log.file|
    ensures forall d: nat :: Replayed(d, rs) == FedBetween(steps, i + 1, k)
    ensures GoodSteps(steps) ==> AllGood(rs) && forall d: nat :: RunCommands(d, ToCommands(rs)) == FedBetween(steps, i + 1, k)
  {
    hide EncodeLog, Replayed, DbAfter, FedBetween, RunCommands, ToCommands, GoodSteps, Good;
    var a := RewriteIsExact(ss, steps, i, j);
    var b := LogIsExact(ss, steps, j + 1, k);
    rs := a + b;
    EncodeLogAppend(a, b);
    var base := steps[i].snapshot;
    assert base + EncodeLog(a) + [] + EncodeLog(b) == base + (EncodeLog(a) + EncodeLog(b));
    FedMore(steps, i + 1, j);
    assert FedBetween(steps, i + 1, j) + [] == FedBetween(steps, i + 1, j);
    FedJoins(steps, i + 1, j + 1, k);
    forall d: nat ensures Replayed(d, rs) == FedBetween(steps, i + 1, k) {
      ReplayedAppend(d, a, b);
      assert Replayed(d, a) == FedBetween(steps, i + 1, j) && Replayed(DbAfter(d, a), b) == FedBetween(steps, j + 1, k);
    }
    if AllGood(rs) {
      forall d: nat ensures RunCommands(d, ToCommands(rs)) == Replayed(d, rs) { CommandsReplay(d, rs); }
    }
  }

  /**
   Loading a file of some commands and then a log: the loader reads exactly these, and
   what it runs is what the first commands run and then what was fed, each command in
   the database its SELECTs, as they stand in the file, put it in.
   */
  lemma {:induction false} RestartRunsTheLog(base: seq<Command>, rs: seq<Record>, fed: seq<(nat, Command)>, file: seq<Byte>)
    requires file == EncodeAll(base) + EncodeLog(rs) && |base| + |rs| > 0 && AllGood(rs) && (forall d: nat :: Replayed(d, rs) == fed)
    requires forall i :: 0 <= i < |base| ==> Fits(base[i])
    ensures var load := LoadFile(file, false);
            load.Loaded? && load.validUpTo == |file| && forall d: nat :: RunCommands(d, load.cmds) == RunCommands(d, base) + fed
  {
    hide Replayed, DbAfter, RunCommands, LoadFile, Fits, Good, EncodeAll;
    var logged := ToCommands(rs);
    EncodeAllAppend(base, logged);
    forall i | 0 <= i < |base + logged| ensures Fits((base + logged)[i]) {
      if i >= |base| { GoodFits(rs[i - |base|]); }
    }
    LoadIsInverse(base + logged, false);
    forall d: nat ensures RunCommands(d, base + logged) == RunCommands(d, base) + fed {
      RunCommandsAppend(d, base, logged);
      CommandsReplay(SelectedAfter(d, base), rs);
    }
  }

  /**
   A restart after a rewrite, at any later time until another one succeeds: the file
   and what the buffer adds to it are loaded without error, and run the commands of
   the snapshot and then every command fed since the fork in its own database.
   */
  lemma {:induction false} RestartAfterRewrite(ss: seq<Server>, steps: seq<Step>, i: nat, j: nat, k: nat, snapshot: seq<Command>)
    requires IsRun(ss, steps) && Rewriting(steps, i, j) && j < |steps| && Succeeds(ss[j], steps[j])
    requires j < k < |ss| && (forall m :: j < m < k ==> !Succeeds(ss[m], steps[m])) && GoodSteps(steps)
    requires steps[i].snapshot == EncodeAll(snapshot) && (forall m :: 0 <= m < |snapshot| ==> Fits(snapshot[m]))
    requires ss[k].log.file + ss[k].log.buf != []
    ensures var load := LoadFile(ss[k].log.file + ss[k].log.buf, false);
            load.Loaded? && forall d: nat :: RunCommands(d, load.cmds) == RunCommands(d, snapshot) + FedBetween(steps, i + 1, k)
  {
    hide Init, Enabled, Next, GoodSteps, Replayed, RunCommands, FedBetween, LoadFile, Fits, AllGood;
    var rs := LogAfterRewrite(ss, steps, i, j, k);
    NothingWritten(snapshot, rs);
    RestartRunsTheLog(snapshot, rs, FedBetween(steps, i + 1, k), ss[k].log.file + ss[k].log.buf);
  }

  lemma {:induction false} NothingWritten(base: seq<Command>, rs: seq<Record>)
    ensures base == [] && rs == [] ==> EncodeAll(base) + EncodeLog(rs) == []
  {
  }
}
