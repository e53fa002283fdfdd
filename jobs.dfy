// What `_run_job` and `_dev_job` (daledou/run.py:66-117) do to the module's
// globals, as functions on a snapshot of them. The methods that run the loops
// are Runtime.Runtime.RunJob and Runtime.Runtime.DevJob; the lemmas below say
// what a run reports and when it stops.
module Jobs {
  import opened Text

  /** One element of PUSH_CONTENT: missions append `find(...)` results, which may be None. */
  type Entry = Option<string>

  /** One account as `init_config` yields it, with the two clock readings its run takes
      (the text of `get_datetime_weekday()` and the whole seconds the run lasted). */
  datatype Account = Account(
    qq: string,
    missions: map<string, seq<string>>,
    startedAt: string,
    elapsed: nat)

  /** What calling one mission function does to the report: it appends some entries and
      then either returns (`isNone` when its value is None) or raises. */
  datatype MissionResult =
    | Returned(appended: seq<Entry>, isNone: bool)
    | Raised(appended: seq<Entry>)

  /** `globals()` as the runner uses it: a mission's name to its behaviour per account. */
  type Registry = map<string, Account -> MissionResult>

  /** The exceptions that escape a run: nothing in the runner catches them. */
  datatype Failure =
    | NoSuchJob(job: string)          // KeyError from `missions[job]`
    | NoSuchMission(name: string)     // KeyError from `globals()[func]`
    | MissionRaised(name: string)     // the mission itself raised
    | ResultUnbound                   // `result` read before any mission assigned it

  /** One call `push(title, remove_none_and_join(PUSH_CONTENT))`, with the list it was given. */
  datatype Notice = Notice(title: string, body: seq<Entry>)

  /** The globals a job touches: QQ, MISSION_NAME, PUSH_CONTENT, and what went out
      through `push` and through the dev job's printed report. */
  datatype State = State(
    qq: string,
    missionName: string,
    buffer: seq<Entry>,
    pushed: seq<Notice>,
    printed: seq<seq<Entry>>)

  datatype Run = Run(state: State, failure: Option<Failure>)

  /** The state after a list of missions, the exception if one escaped, and the value
      of the dev job's `result` variable (None while it is unbound). */
  datatype MissionsRun = MissionsRun(state: State, failure: Option<Failure>, result: Option<bool>)

  /** The cookie-check job, which the runner skips for every account. */
  const CheckJob: string := "check"

  function StartHeader(acc: Account): string {
    "【开始时间】\n" + acc.startedAt
  }

  function MissionHeader(name: string): string {
    "\n【" + name + "】"
  }

  function Footer(acc: Account): string {
    "\n【运行时长】\n时长：" + DecimalString(acc.elapsed) + " s"
  }

  function Title(acc: Account, job: string): string {
    acc.qq + " " + job
  }

  /** `_init_data`: the start header goes into PUSH_CONTENT and QQ is set. */
  function BeginAccount(s: State, acc: Account): State {
    s.(qq := acc.qq, buffer := s.buffer + [Some(StartHeader(acc))])
  }

  /** The loop `for func in ...: MISSION_NAME = func; PUSH_CONTENT.append(header); globals()[func]()`. */
  function Missions(s: State, acc: Account, names: seq<string>, reg: Registry, result: Option<bool>): MissionsRun
    decreases |names|
  {
    if names == [] then MissionsRun(s, None, result)
    else
      var name := names[0];
      var s1 := s.(missionName := name, buffer := s.buffer + [Some(MissionHeader(name))]);
      if name !in reg then MissionsRun(s1, Some(NoSuchMission(name)), result)
      else
        match reg[name](acc)
        case Raised(out) => MissionsRun(s1.(buffer := s1.buffer + out), Some(MissionRaised(name)), result)
        case Returned(out, isNone) => Missions(s1.(buffer := s1.buffer + out), acc, names[1..], reg, Some(isNone))
  }

  /** One pass of `_run_job`'s account loop for a job other than "check". */
  function RunAccount(s: State, job: string, acc: Account, reg: Registry): Run {
    var s1 := BeginAccount(s, acc);
    if job !in acc.missions then Run(s1, Some(NoSuchJob(job)))
    else
      var m := Missions(s1, acc, acc.missions[job], reg, None);
      if m.failure.Some? then Run(m.state, m.failure)
      else
        var body := m.state.buffer + [Some(Footer(acc))];
        Run(m.state.(buffer := [], pushed := m.state.pushed + [Notice(Title(acc, job), body)]), None)
  }

  /** `_run_job(job)` over the accounts, stopping at the first exception. */
  function RunJob(s: State, job: string, accs: seq<Account>, reg: Registry): Run
    decreases |accs|
  {
    if accs == [] then Run(s, None)
    else if job == CheckJob then RunJob(s, job, accs[1..], reg)
    else
      var r := RunAccount(s, job, accs[0], reg);
      if r.failure.Some? then r else RunJob(r.state, job, accs[1..], reg)
  }

  /** `_dev_job(names)` over the accounts; `result` carries the local variable of the
      same name from one account to the next. */
  function DevJob(s: State, names: seq<string>, accs: seq<Account>, reg: Registry, result: Option<bool>): Run
    decreases |accs|
  {
    if accs == [] then Run(s, None)
    else
      var acc := accs[0];
      var m := Missions(BeginAccount(s, acc), acc, names, reg, result);
      if m.failure.Some? then Run(m.state, m.failure)
      else
        var s2 := m.state.(buffer := m.state.buffer + [Some(Footer(acc))]);
        match m.result
        case None => Run(s2, Some(ResultUnbound))
        case Some(isNone) =>
          var s3 := if isNone then s2.(printed := s2.printed + [s2.buffer]) else s2;
          DevJob(s3.(buffer := []), names, accs[1..], reg, m.result)
  }

  // ---------------------------------------------------------------------------
  // Reference definitions: the report an account's run produces, written flat.

  /** What mission `name` appends for `acc` (nothing when it is not defined). */
  function Output(acc: Account, reg: Registry, name: string): seq<Entry> {
    if name in reg then reg[name](acc).appended else []
  }

  /** Each mission's header followed by what it appended, in list order. */
  function Blocks(acc: Account, names: seq<string>, reg: Registry): seq<Entry> {
    if names == [] then []
    else [Some(MissionHeader(names[0]))] + Output(acc, reg, names[0]) + Blocks(acc, names[1..], reg)
  }

  /** Every mission is defined and returns normally. */
  predicate Completes(acc: Account, names: seq<string>, reg: Registry) {
    forall n | n in names :: n in reg && reg[n](acc).Returned?
  }

  /** The whole report of one account's run of `job`, as handed to `push`. */
  function Report(acc: Account, job: string, reg: Registry): seq<Entry>
    requires job in acc.missions
  {
    [Some(StartHeader(acc))] + Blocks(acc, acc.missions[job], reg) + [Some(Footer(acc))]
  }

  predicate JobCompletes(job: string, accs: seq<Account>, reg: Registry) {
    forall a | a in accs :: job in a.missions && Completes(a, a.missions[job], reg)
  }

  /** The pushes of a job that completes: one per account, in account order, the first
      carrying whatever PUSH_CONTENT held (`pending`) before the job began. */
  function Notices(pending: seq<Entry>, job: string, accs: seq<Account>, reg: Registry): seq<Notice>
    requires JobCompletes(job, accs, reg)
    decreases |accs|
  {
    if accs == [] then []
    else [Notice(Title(accs[0], job), pending + Report(accs[0], job, reg))] + Notices([], job, accs[1..], reg)
  }

  // ---------------------------------------------------------------------------
  // Lemmas

  /** Running missions changes only MISSION_NAME and PUSH_CONTENT, and only by appending. */
  lemma {:induction false} MissionsFrame(s: State, acc: Account, names: seq<string>, reg: Registry, result: Option<bool>)
    ensures var m := Missions(s, acc, names, reg, result);
      && m.state.qq == s.qq && m.state.pushed == s.pushed && m.state.printed == s.printed
      && |m.state.buffer| >= |s.buffer| && m.state.buffer[..|s.buffer|] == s.buffer
      && (m.failure.Some? ==> |m.state.buffer| > |s.buffer|)
    decreases |names|
  {
    if names != [] && names[0] in reg && reg[names[0]](acc).Returned? {
      var out := reg[names[0]](acc).appended;
      var s1 := s.(missionName := names[0], buffer := s.buffer + [Some(MissionHeader(names[0]))] + out);
      MissionsFrame(s1, acc, names[1..], reg, Some(reg[names[0]](acc).isNone));
      assert s1.buffer[..|s.buffer|] == s.buffer;
    }
  }

  /** The missions succeed exactly when every one is defined and returns; then the report
      gains each header and each mission's output, in list order, MISSION_NAME is the last
      name and `result` holds what the last mission returned. */
  lemma {:induction false} MissionsAppendBlocks(s: State, acc: Account, names: seq<string>, reg: Registry, result: Option<bool>)
    ensures var m := Missions(s, acc, names, reg, result);
      && (m.failure.None? <==> Completes(acc, names, reg))
      && (m.failure.None? ==>
            && m.state.buffer == s.buffer + Blocks(acc, names, reg)
            && m.state.missionName == (if names == [] then s.missionName else names[|names| - 1])
            && m.result == (if names == [] then result else Some(reg[names[|names| - 1]](acc).isNone)))
    decreases |names|
  {
    if names != [] {
      var name := names[0];
      if name in reg && reg[name](acc).Returned? {
        var out := reg[name](acc).appended;
        var s1 := s.(missionName := name, buffer := s.buffer + [Some(MissionHeader(name))] + out);
        MissionsAppendBlocks(s1, acc, names[1..], reg, Some(reg[name](acc).isNone));
        assert Completes(acc, names, reg) <==> Completes(acc, names[1..], reg) by {
          assert forall n | n in names :: n == name || n in names[1..];
        }
        assert s.buffer + Blocks(acc, names, reg) == s1.buffer + Blocks(acc, names[1..], reg);
      } else {
        assert !Completes(acc, names, reg) by { assert name in names; }
      }
    }
  }

  /** The "check" job touches nothing: no report, no push, no mission. */
  lemma {:induction false} CheckJobChangesNothing(s: State, accs: seq<Account>, reg: Registry)
    ensures RunJob(s, CheckJob, accs, reg) == Run(s, None)
  {
    if accs != [] {
      CheckJobChangesNothing(s, accs[1..], reg);
    }
  }

  /** One account's run succeeds exactly when its job is configured and all its missions
      return; then `push` gets the report, titled "{QQ} {job}", and PUSH_CONTENT is emptied. */
  lemma RunAccountReports(s: State, job: string, acc: Account, reg: Registry)
    ensures var r := RunAccount(s, job, acc, reg);
      && (r.failure.None? <==> job in acc.missions && Completes(acc, acc.missions[job], reg))
      && (r.failure.None? ==>
            && r.state.buffer == []
            && r.state.qq == acc.qq
            && r.state.pushed == s.pushed + [Notice(Title(acc, job), s.buffer + Report(acc, job, reg))])
      && (r.failure.Some? ==> r.state.pushed == s.pushed && |r.state.buffer| > |s.buffer|)
  {
    var s1 := BeginAccount(s, acc);
    if job in acc.missions {
      MissionsAppendBlocks(s1, acc, acc.missions[job], reg, None);
      MissionsFrame(s1, acc, acc.missions[job], reg, None);
      var blocks := Blocks(acc, acc.missions[job], reg);
      assert s1.buffer + blocks + [Some(Footer(acc))] == s.buffer + Report(acc, job, reg);
    }
  }

  /** A job other than "check" over accounts that all complete pushes one report per
      account, in account order, and leaves PUSH_CONTENT empty. */
  lemma {:induction false} RunJobPushesEachReport(s: State, job: string, accs: seq<Account>, reg: Registry)
    requires job != CheckJob
    requires JobCompletes(job, accs, reg)
    ensures var r := RunJob(s, job, accs, reg);
      && r.failure.None?
      && r.state.pushed == s.pushed + Notices(s.buffer, job, accs, reg)
      && r.state.buffer == (if accs == [] then s.buffer else [])
    decreases |accs|
  {
    if accs != [] {
      RunAccountReports(s, job, accs[0], reg);
      var r0 := RunAccount(s, job, accs[0], reg);
      assert JobCompletes(job, accs[1..], reg) by {
        assert forall a | a in accs[1..] :: a in accs;
      }
      RunJobPushesEachReport(r0.state, job, accs[1..], reg);
    }
  }

  /** One account has `job` configured and runs all of its missions to completion. */
  predicate AccountCompletes(job: string, a: Account, reg: Registry) {
    job in a.missions && Completes(a, a.missions[job], reg)
  }

  /** The position of the first account that does not complete `job`. */
  function FirstFailing(job: string, accs: seq<Account>, reg: Registry): (k: nat)
    requires !JobCompletes(job, accs, reg)
    ensures k < |accs| && !AccountCompletes(job, accs[k], reg)
    ensures JobCompletes(job, accs[..k], reg)
    decreases |accs|
  {
    if !AccountCompletes(job, accs[0], reg) then 0
    else
      assert !JobCompletes(job, accs[1..], reg) by {
        assert forall a | a in accs :: a == accs[0] || a in accs[1..];
      }
      var k := 1 + FirstFailing(job, accs[1..], reg);
      assert forall a | a in accs[..k] :: a == accs[0] || a in accs[1..][..k - 1] by {
        assert accs[..k] == [accs[0]] + accs[1..][..k - 1];
      }
      k
  }

  /** There is no per-account isolation. Once an exception escapes, the accounts before
      the first failing one have had their full reports pushed, in order, and nothing
      else was pushed. PUSH_CONTENT keeps the failing account's start header and whatever
      its missions collected before the exception. */
  lemma RunJobFailureStopsJob(s: State, job: string, accs: seq<Account>, reg: Registry)
    requires RunJob(s, job, accs, reg).failure.Some?
    ensures job != CheckJob && !JobCompletes(job, accs, reg)
    ensures var r := RunJob(s, job, accs, reg);
      var k := FirstFailing(job, accs, reg);
      var pending := (if k == 0 then s.buffer else []) + [Some(StartHeader(accs[k]))];
      && r.state.pushed == s.pushed + Notices(s.buffer, job, accs[..k], reg)
      && |r.state.buffer| >= |pending| && r.state.buffer[..|pending|] == pending
  {
    if job == CheckJob {
      CheckJobChangesNothing(s, accs, reg);
    } else {
      RunJobSucceedsIff(s, job, accs, reg);
      RunJobFailurePushes(s, job, accs, reg);
      RunJobFailureBuffer(s, job, accs, reg);
    }
  }

  lemma {:induction false} RunJobFailurePushes(s: State, job: string, accs: seq<Account>, reg: Registry)
    requires job != CheckJob && !JobCompletes(job, accs, reg)
    ensures RunJob(s, job, accs, reg).state.pushed
         == s.pushed + Notices(s.buffer, job, accs[..FirstFailing(job, accs, reg)], reg)
    decreases |accs|
  {
    var r0 := RunAccount(s, job, accs[0], reg);
    if r0.failure.Some? {
      FailsAtFirst(s, job, accs, reg);
    } else {
      PassesFirst(s, job, accs, reg);
      RunJobFailurePushes(r0.state, job, accs[1..], reg);
    }
  }

  /** The first account raises: nothing is pushed, and it is the first failing account. */
  lemma FailsAtFirst(s: State, job: string, accs: seq<Account>, reg: Registry)
    requires job != CheckJob && !JobCompletes(job, accs, reg)
    requires RunAccount(s, job, accs[0], reg).failure.Some?
    ensures FirstFailing(job, accs, reg) == 0
    ensures RunJob(s, job, accs, reg).state.pushed == s.pushed + Notices(s.buffer, job, accs[..0], reg)
  {
    AccountFailureKeepsHeader(s, job, accs[0], reg);
    assert accs[..0] == [];
  }

  /** The first account completes: the rest of the job is the same job over the remaining
      accounts, which still hold the first failing one, and PUSH_CONTENT starts empty. */
  lemma PassesFirst(s: State, job: string, accs: seq<Account>, reg: Registry)
    requires job != CheckJob && !JobCompletes(job, accs, reg)
    requires RunAccount(s, job, accs[0], reg).failure.None?
    ensures var r0 := RunAccount(s, job, accs[0], reg);
      && !JobCompletes(job, accs[1..], reg)
      && RunJob(s, job, accs, reg) == RunJob(r0.state, job, accs[1..], reg)
      && r0.state.buffer == []
      && s.pushed + Notices(s.buffer, job, accs[..FirstFailing(job, accs, reg)], reg)
         == r0.state.pushed + Notices([], job, accs[1..][..FirstFailing(job, accs[1..], reg)], reg)
  {
    AccountSuccessPushes(s, job, accs[0], reg);
    FirstFailingTail(job, accs, reg);
    PushedReport(s, job, accs, reg);
  }

  /** The pushes up to the first failing account: the first account's report, then the
      pushes of the remaining accounts up to it. */
  lemma PushedReport(s: State, job: string, accs: seq<Account>, reg: Registry)
    requires !JobCompletes(job, accs, reg) && AccountCompletes(job, accs[0], reg)
    requires !JobCompletes(job, accs[1..], reg)
    requires FirstFailing(job, accs, reg) == 1 + FirstFailing(job, accs[1..], reg)
    ensures s.pushed + Notices(s.buffer, job, accs[..FirstFailing(job, accs, reg)], reg)
         == s.pushed + [Notice(Title(accs[0], job), s.buffer + Report(accs[0], job, reg))]
            + Notices([], job, accs[1..][..FirstFailing(job, accs[1..], reg)], reg)
  {
    var k := FirstFailing(job, accs, reg);
    NoticesPrefix(s.buffer, job, accs, reg, k);
  }

  lemma FirstFailingTail(job: string, accs: seq<Account>, reg: Registry)
    requires !JobCompletes(job, accs, reg) && AccountCompletes(job, accs[0], reg)
    ensures !JobCompletes(job, accs[1..], reg)
    ensures FirstFailing(job, accs, reg) == 1 + FirstFailing(job, accs[1..], reg)
  {
  }

  lemma AccountSuccessPushes(s: State, job: string, acc: Account, reg: Registry)
    requires RunAccount(s, job, acc, reg).failure.None?
    ensures AccountCompletes(job, acc, reg)
    ensures var r := RunAccount(s, job, acc, reg);
      r.state.buffer == [] && r.state.pushed == s.pushed + [Notice(Title(acc, job), s.buffer + Report(acc, job, reg))]
  {
    RunAccountReports(s, job, acc, reg);
  }

  lemma NoticesPrefix(pending: seq<Entry>, job: string, accs: seq<Account>, reg: Registry, k: nat)
    requires 0 < k <= |accs| && JobCompletes(job, accs[..k], reg)
    ensures JobCompletes(job, accs[1..][..k - 1], reg)
    ensures accs[0] in accs[..k]
    ensures Notices(pending, job, accs[..k], reg)
         == [Notice(Title(accs[0], job), pending + Report(accs[0], job, reg))] + Notices([], job, accs[1..][..k - 1], reg)
  {
    assert accs[..k][0] == accs[0] && accs[..k][1..] == accs[1..][..k - 1];
  }

  lemma {:induction false} RunJobFailureBuffer(s: State, job: string, accs: seq<Account>, reg: Registry)
    requires job != CheckJob && !JobCompletes(job, accs, reg)
    ensures var k := FirstFailing(job, accs, reg);
      var pending := (if k == 0 then s.buffer else []) + [Some(StartHeader(accs[k]))];
      var b := RunJob(s, job, accs, reg).state.buffer;
      |b| >= |pending| && b[..|pending|] == pending
    decreases |accs|
  {
    var acc := accs[0];
    var r0 := RunAccount(s, job, acc, reg);
    RunAccountReports(s, job, acc, reg);
    if r0.failure.Some? {
      AccountFailureKeepsHeader(s, job, acc, reg);
    } else {
      var k := FirstFailing(job, accs, reg);
      FirstFailingTail(job, accs, reg);
      RunJobFailureBuffer(r0.state, job, accs[1..], reg);
      assert accs[1..][k - 1] == accs[k];
    }
  }

  /** An account whose run raises pushes nothing and leaves PUSH_CONTENT starting with what
      it held before, followed by the account's start header. */
  lemma AccountFailureKeepsHeader(s: State, job: string, acc: Account, reg: Registry)
    requires RunAccount(s, job, acc, reg).failure.Some?
    ensures !AccountCompletes(job, acc, reg)
    ensures var r := RunAccount(s, job, acc, reg);
      && r.state.pushed == s.pushed
      && |r.state.buffer| > |s.buffer| && r.state.buffer[..|s.buffer| + 1] == s.buffer + [Some(StartHeader(acc))]
  {
    RunAccountReports(s, job, acc, reg);
    var s1 := BeginAccount(s, acc);
    if job in acc.missions {
      MissionsFrame(s1, acc, acc.missions[job], reg, None);
      var b := RunAccount(s, job, acc, reg).state.buffer;
      assert b[..|s.buffer| + 1] == b[..|s1.buffer|][..|s.buffer| + 1];
    }
  }

  /** A job over accounts that all complete never fails, and a job that does not fail
      met only accounts that complete. */
  lemma {:induction false} RunJobSucceedsIff(s: State, job: string, accs: seq<Account>, reg: Registry)
    requires job != CheckJob
    ensures RunJob(s, job, accs, reg).failure.None? <==> JobCompletes(job, accs, reg)
    decreases |accs|
  {
    if accs != [] {
      RunAccountReports(s, job, accs[0], reg);
      var r0 := RunAccount(s, job, accs[0], reg);
      if r0.failure.None? {
        RunJobSucceedsIff(r0.state, job, accs[1..], reg);
        assert JobCompletes(job, accs, reg) <==> JobCompletes(job, accs[1..], reg) by {
          assert forall a | a in accs :: a == accs[0] || a in accs[1..];
        }
      } else {
        assert !JobCompletes(job, accs, reg) by { assert accs[0] in accs; }
      }
    }
  }

  // ---------------------------------------------------------------------------
  // Mission headers in a report

  predicate IsHeader(e: Entry) {
    e.Some? && |e.value| >= 3 && e.value[..2] == "\n【" && e.value[|e.value| - 1] == '】'
  }

  /** The mission names read back from the headers of a report, in order. */
  function Headers(entries: seq<Entry>): seq<string> {
    if entries == [] then []
    else if IsHeader(entries[0]) then
      [entries[0].value[2..|entries[0].value| - 1]] + Headers(entries[1..])
    else Headers(entries[1..])
  }

  predicate NoHeaders(entries: seq<Entry>) {
    forall k | 0 <= k < |entries| :: !IsHeader(entries[k])
  }

  lemma {:induction false} HeadersAppend(a: seq<Entry>, b: seq<Entry>)
    ensures Headers(a + b) == Headers(a) + Headers(b)
  {
    if a == [] {
      assert a + b == b;
    } else {
      assert (a + b)[0] == a[0];
      assert (a + b)[1..] == a[1..] + b;
      HeadersAppend(a[1..], b);
    }
  }

  lemma {:induction false} NoHeadersHasNone(entries: seq<Entry>)
    requires NoHeaders(entries)
    ensures Headers(entries) == []
  {
    if entries != [] {
      NoHeadersHasNone(entries[1..]);
    }
  }

  lemma {:induction false} HeadersOfBlocks(acc: Account, names: seq<string>, reg: Registry)
    requires forall n | n in reg :: NoHeaders(reg[n](acc).appended)
    ensures Headers(Blocks(acc, names, reg)) == names
  {
    if names != [] {
      var h := Some(MissionHeader(names[0]));
      var out := Output(acc, reg, names[0]);
      HeadersAppend([h] + out, Blocks(acc, names[1..], reg));
      HeadersAppend([h], out);
      NoHeadersHasNone(out);
      assert h.value[2..|h.value| - 1] == names[0];
      HeadersOfBlocks(acc, names[1..], reg);
    }
  }

  /** When no mission writes a line shaped like a mission header, the headers of an
      account's report name exactly its missions for the job, in the order they ran. */
  lemma HeadersFollowMissionOrder(acc: Account, job: string, reg: Registry)
    requires job in acc.missions
    requires forall n | n in reg :: NoHeaders(reg[n](acc).appended)
    ensures Headers(Report(acc, job, reg)) == acc.missions[job]
  {
    var start := Some(StartHeader(acc));
    var foot := Some(Footer(acc));
    var blocks := Blocks(acc, acc.missions[job], reg);
    HeadersAppend([start] + blocks, [foot]);
    HeadersAppend([start], blocks);
    assert !IsHeader(start) by { assert start.value[0] == '【'; }
    assert !IsHeader(foot) by { assert foot.value[|foot.value| - 1] == 's'; }
    HeadersOfBlocks(acc, acc.missions[job], reg);
  }

  // ---------------------------------------------------------------------------
  // The dev job

  /** The dev job prints reports instead of pushing them. */
  lemma {:induction false} DevJobNeverPushes(s: State, names: seq<string>, accs: seq<Account>, reg: Registry, result: Option<bool>)
    ensures DevJob(s, names, accs, reg, result).state.pushed == s.pushed
    decreases |accs|
  {
    if accs != [] {
      var acc := accs[0];
      var m := Missions(BeginAccount(s, acc), acc, names, reg, result);
      MissionsFrame(BeginAccount(s, acc), acc, names, reg, result);
      if m.failure.None? && m.result.Some? {
        var s2 := m.state.(buffer := m.state.buffer + [Some(Footer(acc))]);
        var s3 := if m.result.value then s2.(printed := s2.printed + [s2.buffer]) else s2;
        DevJobNeverPushes(s3.(buffer := []), names, accs[1..], reg, m.result);
      }
    }
  }

  /** Every account runs all the named missions to completion. */
  predicate DevCompletes(names: seq<string>, accs: seq<Account>, reg: Registry) {
    forall a | a in accs :: Completes(a, names, reg)
  }

  /** Whether the last named mission returned None for `acc`, which makes the dev job print. */
  predicate LastReturnsNone(acc: Account, names: seq<string>, reg: Registry)
    requires names != [] && Completes(acc, names, reg)
  {
    assert names[|names| - 1] in names;
    reg[names[|names| - 1]](acc).isNone
  }

  /** The reports a dev job over accounts that all complete prints: one per account whose
      last mission returned None, in account order, the first account's report carrying
      whatever PUSH_CONTENT held (`pending`) before the job began. */
  function Prints(pending: seq<Entry>, names: seq<string>, accs: seq<Account>, reg: Registry): seq<seq<Entry>>
    requires names != [] && DevCompletes(names, accs, reg)
    decreases |accs|
  {
    if accs == [] then []
    else
      assert accs[0] in accs;
      assert DevCompletes(names, accs[1..], reg) by { assert forall a | a in accs[1..] :: a in accs; }
      var report := pending + [Some(StartHeader(accs[0]))] + Blocks(accs[0], names, reg) + [Some(Footer(accs[0]))];
      (if LastReturnsNone(accs[0], names, reg) then [report] else []) + Prints([], names, accs[1..], reg)
  }

  /** A dev job whose accounts all run a non-empty list of missions to completion prints
      exactly the reports of `Prints`, pushes nothing, and leaves PUSH_CONTENT empty. */
  lemma {:induction false} DevJobPrintsEachReport(s: State, names: seq<string>, accs: seq<Account>, reg: Registry, result: Option<bool>)
    requires names != [] && DevCompletes(names, accs, reg)
    ensures var r := DevJob(s, names, accs, reg, result);
      && r.failure.None?
      && r.state.printed == s.printed + Prints(s.buffer, names, accs, reg)
      && r.state.pushed == s.pushed
      && r.state.buffer == (if accs == [] then s.buffer else [])
    decreases |accs|
  {
    if accs != [] {
      var acc := accs[0];
      var s1 := BeginAccount(s, acc);
      assert acc in accs;
      MissionsAppendBlocks(s1, acc, names, reg, result);
      MissionsFrame(s1, acc, names, reg, result);
      var m := Missions(s1, acc, names, reg, result);
      var s2 := m.state.(buffer := m.state.buffer + [Some(Footer(acc))]);
      assert s2.buffer == s.buffer + [Some(StartHeader(acc))] + Blocks(acc, names, reg) + [Some(Footer(acc))];
      var s3 := if m.result.value then s2.(printed := s2.printed + [s2.buffer]) else s2;
      assert DevCompletes(names, accs[1..], reg) by { assert forall a | a in accs[1..] :: a in accs; }
      DevJobPrintsEachReport(s3.(buffer := []), names, accs[1..], reg, m.result);
    }
  }

  /** A dev job gets through all accounts exactly when every account runs every named
      mission to completion and `result` is bound by the time the first account reads it:
      some name was given, or `result` was already bound. */
  lemma {:induction false} DevJobSucceedsIff(s: State, names: seq<string>, accs: seq<Account>, reg: Registry, result: Option<bool>)
    ensures DevJob(s, names, accs, reg, result).failure.None? <==>
      DevCompletes(names, accs, reg) && (accs == [] || names != [] || result.Some?)
    decreases |accs|
  {
    if accs != [] {
      var acc := accs[0];
      var s1 := BeginAccount(s, acc);
      MissionsAppendBlocks(s1, acc, names, reg, result);
      var m := Missions(s1, acc, names, reg, result);
      if m.failure.None? && m.result.Some? {
        var s2 := m.state.(buffer := m.state.buffer + [Some(Footer(acc))]);
        var s3 := if m.result.value then s2.(printed := s2.printed + [s2.buffer]) else s2;
        DevJobSucceedsIff(s3.(buffer := []), names, accs[1..], reg, m.result);
        assert DevCompletes(names, accs, reg) <==> DevCompletes(names, accs[1..], reg) by {
          assert forall a | a in accs :: a == acc || a in accs[1..];
        }
      } else if m.failure.Some? {
        assert !DevCompletes(names, accs, reg) by { assert acc in accs; }
      }
    }
  }

  /** With no mission names, the first account reads `result` before it is bound: the
      run stops there with its start header and footer left in PUSH_CONTENT. */
  lemma DevJobWithoutMissionsFails(s: State, accs: seq<Account>, reg: Registry)
    requires accs != []
    ensures DevJob(s, [], accs, reg, None) ==
      Run(s.(qq := accs[0].qq, buffer := s.buffer + [Some(StartHeader(accs[0])), Some(Footer(accs[0]))]), Some(ResultUnbound))
  {
  }
}
