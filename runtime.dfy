// The module-level state of daledou/run.py and the operations that change it:
// `get`, `print_info`, `find`, `findall`, `_init_data`, `_run_job`, `_dev_job`.
module Runtime {
  import opened Text
  import Retry
  import Jobs

  /** Python's `re` with `re.S`, left uninterpreted: `search` gives capture group 1 of the
      first match of a pattern in a text (None when nothing matches), `findAll` the groups
      of every match, in document order. */
  datatype Regex = Regex(
    search: (string, string) -> Option<string>,
    findAll: (string, string) -> seq<seq<string>>)

  /** The pattern `find` uses when it is given none. */
  const DefaultPattern: string := "<br />(.*?)<"

  /** The line `print_info` hands to the logger. */
  function LogLine(qq: string, name: string, message: string): string {
    qq + " | " + name + "：" + message
  }

  /** How an f-string renders what `find` found: None prints as "None". */
  function Shown(r: Option<string>): string {
    r.GetOr("None")
  }

  class Runtime {
    /** The transport: the body the game server sends back to the k-th request of the process. */
    const server: nat -> string
    /** The URLs requested so far, in order. */
    var sent: seq<string>
    /** HTML: the body of the latest response. */
    var html: string
    /** QQ: the account being run. */
    var qq: string
    /** MISSION_NAME: the mission being run, used to tag log lines. */
    var missionName: string
    /** PUSH_CONTENT: the report being collected. */
    var buffer: seq<Jobs.Entry>
    /** The calls made to `push`. */
    var pushed: seq<Jobs.Notice>
    /** The reports the dev job printed. */
    var printed: seq<seq<Jobs.Entry>>
    /** The lines written through the logger. */
    var log: seq<string>

    constructor (server: nat -> string)
      ensures this.server == server
      ensures sent == [] && buffer == [] && pushed == [] && printed == [] && log == []
    {
      this.server := server;
      sent, html, qq, missionName := [], "", "", "";
      buffer, pushed, printed, log := [], [], [], [];
    }

    /** The globals that the job runner reads and writes. */
    function Snapshot(): Jobs.State
      reads this
    {
      Jobs.State(qq, missionName, buffer, pushed, printed)
    }

    /** `get(params)`: request the page until a body without the busy marker arrives, at most
        three times; HTML holds the last body, which is also returned, busy or not. */
    method Get(params: string) returns (body: string)
      modifies this`sent, this`html
      ensures var replies := Retry.Replies(server, |old(sent)|);
        var n := Retry.Attempts(replies);
        && sent == old(sent) + Repeat(Retry.Url(params), n)
        && html == replies[n - 1]
        && body == html
    {
      var url := Retry.Url(params);
      ghost var replies := Retry.Replies(server, |sent|);
      var count := 0;
      for i := 0 to Retry.MaxAttempts
        invariant count == i
        invariant sent == old(sent) + Repeat(url, i)
        invariant i > 0 ==> html == replies[i - 1]
        invariant forall k | 0 <= k < i :: Retry.Busy(replies[k])
      {
        html := server(|sent|);
        sent := sent + [url];
        count := count + 1;
        if !Retry.Busy(html) {
          break;
        }
      }
      Retry.AttemptsUnique(replies, count);
      body := html;
    }

    /** `print_info(message, name)`: one log line, tagged with MISSION_NAME when no name is given. */
    method PrintInfo(message: string, name: Option<string> := None)
      modifies this`log
      ensures log == old(log) + [LogLine(qq, name.GetOr(missionName), message)]
    {
      var tag := if name.None? then missionName else name.value;
      log := log + [LogLine(qq, tag, message)];
    }

    /** `find(mode, name)`: group 1 of the first match in HTML, or None; either way the
        result is logged once. */
    method Find(engine: Regex, mode: string := DefaultPattern, name: Option<string> := None)
      returns (result: Option<string>)
      modifies this`log
      ensures result == engine.search(mode, html)
      ensures log == old(log) + [LogLine(qq, name.GetOr(missionName), Shown(result))]
    {
      result := engine.search(mode, html);
      PrintInfo(Shown(result), name);
    }

    /** `findall(mode)`: every match in HTML, without logging. */
    method FindAll(engine: Regex, mode: string) returns (matches: seq<seq<string>>)
      ensures matches == engine.findAll(mode, html)
    {
      matches := engine.findAll(mode, html);
    }

    /** `_init_data(data)`: the start header goes into PUSH_CONTENT and QQ is set. */
    method InitData(acc: Jobs.Account)
      modifies this`qq, this`buffer
      ensures Snapshot() == Jobs.BeginAccount(old(Snapshot()), acc)
    {
      buffer := buffer + [Some(Jobs.StartHeader(acc))];
      qq := acc.qq;
    }

    /** The mission loop shared by `_run_job` and `_dev_job`; `result` mirrors the dev
        job's local variable of that name. */
    method RunMissions(acc: Jobs.Account, names: seq<string>, reg: Jobs.Registry, result0: Option<bool>)
      returns (failure: Option<Jobs.Failure>, result: Option<bool>)
      modifies this`missionName, this`buffer
      ensures Jobs.MissionsRun(Snapshot(), failure, result) == Jobs.Missions(old(Snapshot()), acc, names, reg, result0)
    {
      failure, result := None, result0;
      for j := 0 to |names|
        invariant Jobs.Missions(Snapshot(), acc, names[j..], reg, result)
               == Jobs.Missions(old(Snapshot()), acc, names, reg, result0)
      {
        assert names[j..][0] == names[j] && names[j..][1..] == names[j + 1..];
        var func := names[j];
        missionName := func;
        buffer := buffer + [Some(Jobs.MissionHeader(func))];
        if func !in reg {
          failure := Some(Jobs.NoSuchMission(func));
          return;
        }
        match reg[func](acc)
        case Raised(out) =>
          buffer := buffer + out;
          failure := Some(Jobs.MissionRaised(func));
          return;
        case Returned(out, isNone) =>
          buffer := buffer + out;
          result := Some(isNone);
      }
    }

    /** `_run_job(job)`: every account's missions for the job, one report pushed per account. */
    method RunJob(job: string, accounts: seq<Jobs.Account>, reg: Jobs.Registry)
      returns (failure: Option<Jobs.Failure>)
      modifies this`qq, this`missionName, this`buffer, this`pushed
      ensures Jobs.Run(Snapshot(), failure) == Jobs.RunJob(old(Snapshot()), job, accounts, reg)
    {
      failure := None;
      for i := 0 to |accounts|
        invariant Jobs.RunJob(Snapshot(), job, accounts[i..], reg)
               == Jobs.RunJob(old(Snapshot()), job, accounts, reg)
      {
        assert accounts[i..][0] == accounts[i] && accounts[i..][1..] == accounts[i + 1..];
        if job == Jobs.CheckJob {
          continue;
        }
        var acc := accounts[i];
        InitData(acc);
        if job !in acc.missions {
          failure := Some(Jobs.NoSuchJob(job));
          return;
        }
        var f, _ := RunMissions(acc, acc.missions[job], reg, None);
        if f.Some? {
          failure := f;
          return;
        }
        buffer := buffer + [Some(Jobs.Footer(acc))];
        pushed := pushed + [Jobs.Notice(Jobs.Title(acc, job), buffer)];
        buffer := [];
      }
    }

    /** `_dev_job(names)`: the named missions for every account; the report is printed
        when the last mission returned None, and is never pushed. */
    method DevJob(names: seq<string>, accounts: seq<Jobs.Account>, reg: Jobs.Registry)
      returns (failure: Option<Jobs.Failure>)
      modifies this`qq, this`missionName, this`buffer, this`printed
      ensures Jobs.Run(Snapshot(), failure) == Jobs.DevJob(old(Snapshot()), names, accounts, reg, None)
    {
      failure := None;
      var result: Option<bool> := None;
      for i := 0 to |accounts|
        invariant Jobs.DevJob(Snapshot(), names, accounts[i..], reg, result)
               == Jobs.DevJob(old(Snapshot()), names, accounts, reg, None)
      {
        assert accounts[i..][0] == accounts[i] && accounts[i..][1..] == accounts[i + 1..];
        var acc := accounts[i];
        InitData(acc);
        var f;
        f, result := RunMissions(acc, names, reg, result);
        if f.Some? {
          failure := f;
          return;
        }
        buffer := buffer + [Some(Jobs.Footer(acc))];
        if result.None? {
          failure := Some(Jobs.ResultUnbound);
          return;
        }
        if result.value {
          printed := printed + [buffer];
        }
        buffer := [];
      }
    }
  }
}
