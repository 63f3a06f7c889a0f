/** The `schedule_heartbeat` agent tool
    (crates/opencrust-agents/src/tools/schedule.rs): the checks it runs, in
    order, before it records a future wake-up call in the task store. */
module Schedule {
  import opened Common
  import opened Errors

  /** 30 days in seconds. */
  const MaxDelaySeconds: int := 30 * 24 * 60 * 60
  const MaxPendingPerSession: int := 5

  /** A JSON value as `serde_json` holds it.  `JInt` covers every integer
      serde keeps exactly (from -2^63 to 2^64 - 1); other numbers are
      `JFloat`. */
  datatype Json =
    | JNull
    | JBool(b: bool)
    | JInt(i: int)
    | JFloat
    | JString(s: string)
    | JArray(items: seq<Json>)
    | JObject(fields: map<string, Json>)

  /** `value[key]`: `Null` for a missing key or a non-object. */
  function Field(v: Json, key: string): (r: Json)
    ensures r != JNull ==> v.JObject? && key in v.fields && v.fields[key] == r
  {
    if v.JObject? && key in v.fields then v.fields[key] else JNull
  }

  /** `Value::as_i64`. */
  function AsI64(v: Json): (r: Option<i64>)
    ensures r.Some? <==> v.JInt? && -0x8000_0000_0000_0000 <= v.i < 0x8000_0000_0000_0000
    ensures r.Some? ==> r.value == v.i
  {
    if v.JInt? && -0x8000_0000_0000_0000 <= v.i < 0x8000_0000_0000_0000 then Some(v.i) else None
  }

  /** `Value::as_str`. */
  function AsStr(v: Json): (r: Option<string>)
    ensures r.Some? <==> v.JString?
  {
    if v.JString? then Some(v.s) else None
  }

  datatype ToolContext = ToolContext(sessionId: string, userId: Option<string>, isHeartbeat: bool)

  datatype ToolOutput = ToolOutput(content: string, isError: bool)

  /** One row of the scheduled-task table. */
  datatype Task = Task(id: string, session: string, user: string, executeAt: int, reason: string, pending: bool)

  /** What the tool takes from outside: the clock (Unix seconds), its
      RFC 3339 rendering, the id the store assigns to the next task, and the
      store's failures, if any, when it counts the pending tasks and when it
      inserts the new one. */
  datatype Env = Env(now: int, rfc3339: int -> string, nextTaskId: string,
                     countError: Option<Error>, scheduleError: Option<Error>)

  /** The task store answers both of its calls. */
  predicate StoreAnswers(env: Env) {
    env.countError.None? && env.scheduleError.None?
  }

  /** `count_pending_tasks_for_session`. */
  function PendingFor(tasks: seq<Task>, session: string): (n: nat)
    ensures n <= |tasks|
  {
    if tasks == [] then 0
    else (if tasks[0].session == session && tasks[0].pending then 1 else 0) + PendingFor(tasks[1..], session)
  }

  lemma {:induction false} PendingForAppend(a: seq<Task>, b: seq<Task>, session: string)
    ensures PendingFor(a + b, session) == PendingFor(a, session) + PendingFor(b, session)
  {
    if a == [] {
      assert a + b == b;
    } else {
      assert (a + b)[1..] == a[1..] + b;
      PendingForAppend(a[1..], b, session);
    }
  }

  datatype Outcome = Outcome(result: Result<ToolOutput>, tasks: seq<Task>)

  const HeartbeatMessage := "cannot schedule a heartbeat from within a heartbeat execution"
  const DelayArgMessage := "missing or invalid 'delay_seconds' argument"
  const ReasonArgMessage := "missing or invalid 'reason' argument"
  const NotPositiveMessage := "delay_seconds must be positive"

  /** The over-long-delay message, with the bound written out. */
  const TooLongMessage := "delay_seconds cannot exceed " + "2592000" + " (" + "30 days" + ")"

  /** The bound in the message is `MaxDelaySeconds`. */
  lemma TooLongMessageShowsMax()
    ensures TooLongMessage == "delay_seconds cannot exceed " + Decimal(MaxDelaySeconds) + " (30 days)"
  {
    assert Decimal(25) == Decimal(2) + [Digit(5)] == "25";
    assert Decimal(259) == Decimal(25) + [Digit(9)] == "259";
    assert Decimal(2592) == Decimal(259) + [Digit(2)] == "2592";
    assert Decimal(25920) == Decimal(2592) + [Digit(0)] == "25920";
    assert Decimal(259200) == Decimal(25920) + [Digit(0)] == "259200";
    assert Decimal(2592000) == Decimal(259200) + [Digit(0)] == "2592000";
  }

  function TooManyMessage(pending: int): string {
    "session already has " + SignedDecimal(pending) + " pending heartbeats (max " + Decimal(MaxPendingPerSession) + ")"
  }

  function SuccessText(executeAt: string, delay: int, taskId: string): string {
    "Heartbeat scheduled for " + executeAt + " (in " + SignedDecimal(delay) + " seconds). Task ID: " + taskId
  }

  /** `ScheduleHeartbeat::execute` against the task table `tasks`. */
  function Execute(ctx: ToolContext, args: Json, tasks: seq<Task>, env: Env): (o: Outcome)
  {
    if ctx.isHeartbeat then Outcome(Err(Agent(HeartbeatMessage)), tasks)
    else
      match AsI64(Field(args, "delay_seconds"))
      case None => Outcome(Err(Agent(DelayArgMessage)), tasks)
      case Some(delay) =>
        match AsStr(Field(args, "reason"))
        case None => Outcome(Err(Agent(ReasonArgMessage)), tasks)
        case Some(reason) =>
          if delay <= 0 then Outcome(Err(Agent(NotPositiveMessage)), tasks)
          else if delay > MaxDelaySeconds then Outcome(Err(Agent(TooLongMessage)), tasks)
          else
            var user := if ctx.userId.Some? then ctx.userId.value else "unknown";
            if env.countError.Some? then Outcome(Err(env.countError.value), tasks)
            else
            var pending := PendingFor(tasks, ctx.sessionId);
            if pending >= MaxPendingPerSession then Outcome(Err(Agent(TooManyMessage(pending))), tasks)
            else if env.scheduleError.Some? then Outcome(Err(env.scheduleError.value), tasks)
            else
              var executeAt := env.now + delay;
              var task := Task(env.nextTaskId, ctx.sessionId, user, executeAt, reason, true);
              var text := SuccessText(env.rfc3339(executeAt), delay, env.nextTaskId);
              Outcome(Ok(ToolOutput(text, false)), tasks + [task])
  }

  /** A refused call leaves the task table alone; an accepted one appends
      exactly one task. */
  lemma ExecuteAppends(ctx: ToolContext, args: Json, tasks: seq<Task>, env: Env)
    ensures Execute(ctx, args, tasks, env).result.Err? ==> Execute(ctx, args, tasks, env).tasks == tasks
    ensures Execute(ctx, args, tasks, env).result.Ok? ==>
              |Execute(ctx, args, tasks, env).tasks| == |tasks| + 1
              && Execute(ctx, args, tasks, env).tasks[..|tasks|] == tasks
  {
  }

  /** Arguments the tool accepts: an integer delay in 1..30 days and a
      string reason. */
  predicate ValidArgs(args: Json) {
    var d := Field(args, "delay_seconds");
    d.JInt? && 1 <= d.i <= MaxDelaySeconds && Field(args, "reason").JString?
  }

  /** Scheduling succeeds exactly when the call does not come from a
      heartbeat, the arguments are valid, the session has fewer than five
      pending tasks and the store answers both calls. */
  lemma ExecuteOkIff(ctx: ToolContext, args: Json, tasks: seq<Task>, env: Env)
    ensures Execute(ctx, args, tasks, env).result.Ok? <==>
            !ctx.isHeartbeat && ValidArgs(args) && PendingFor(tasks, ctx.sessionId) < MaxPendingPerSession
            && StoreAnswers(env)
  {
    var d := Field(args, "delay_seconds");
    if d.JInt? && 1 <= d.i <= MaxDelaySeconds {
      assert AsI64(d) == Some(d.i);
    }
  }

  /** A successful call records one pending task due `delay` seconds from
      now, for the caller or for "unknown". */
  lemma ExecuteRecords(ctx: ToolContext, args: Json, tasks: seq<Task>, env: Env)
    requires Execute(ctx, args, tasks, env).result.Ok?
    ensures Execute(ctx, args, tasks, env).tasks
            == tasks + [Task(env.nextTaskId, ctx.sessionId, if ctx.userId.Some? then ctx.userId.value else "unknown",
                             env.now + Field(args, "delay_seconds").i, Field(args, "reason").s, true)]
    ensures !Execute(ctx, args, tasks, env).result.value.isError
  {
    ExecuteOkIff(ctx, args, tasks, env);
    assert AsI64(Field(args, "delay_seconds")) == Some(Field(args, "delay_seconds").i);
    assert AsStr(Field(args, "reason")) == Some(Field(args, "reason").s);
  }

  /** A heartbeat context is refused before any argument is looked at. */
  lemma HeartbeatRefusedFirst(ctx: ToolContext, args: Json, tasks: seq<Task>, env: Env)
    requires ctx.isHeartbeat
    ensures Execute(ctx, args, tasks, env) == Outcome(Err(Agent(HeartbeatMessage)), tasks)
  {
  }

  /** The argument checks, in their order. */
  lemma ArgumentErrors(ctx: ToolContext, args: Json, tasks: seq<Task>, env: Env)
    requires !ctx.isHeartbeat
    ensures AsI64(Field(args, "delay_seconds")).None? ==>
              Execute(ctx, args, tasks, env).result == Err(Agent(DelayArgMessage))
    ensures AsI64(Field(args, "delay_seconds")).Some? && !Field(args, "reason").JString? ==>
              Execute(ctx, args, tasks, env).result == Err(Agent(ReasonArgMessage))
    ensures AsI64(Field(args, "delay_seconds")).Some? && Field(args, "reason").JString?
            && Field(args, "delay_seconds").i <= 0 ==>
              Execute(ctx, args, tasks, env).result == Err(Agent(NotPositiveMessage))
    ensures AsI64(Field(args, "delay_seconds")).Some? && Field(args, "reason").JString?
            && Field(args, "delay_seconds").i > MaxDelaySeconds ==>
              Execute(ctx, args, tasks, env).result == Err(Agent(TooLongMessage))
  {
  }

  lemma TooLongMentions30Days()
    ensures IsSubstring("30 days", TooLongMessage)
  {
    SubstringOfConcat("delay_seconds cannot exceed " + "2592000" + " (", "30 days", ")");
  }

  lemma SuccessMentionsTaskId(executeAt: string, delay: int, taskId: string)
    ensures IsSubstring("Task ID:", SuccessText(executeAt, delay, taskId))
  {
    var head := "Heartbeat scheduled for " + executeAt + " (in " + SignedDecimal(delay) + " seconds). ";
    assert " seconds). Task ID: " == " seconds). " + "Task ID:" + " ";
    assert SuccessText(executeAt, delay, taskId) == head + "Task ID:" + (" " + taskId);
    SubstringOfConcat(head, "Task ID:", " " + taskId);
  }

  /** The arguments `{"delay_seconds": d, "reason": reason}`. */
  function Args(d: int, reason: string): (args: Json)
    ensures Field(args, "delay_seconds") == JInt(d) && Field(args, "reason") == JString(reason)
  {
    JObject(map["delay_seconds" := JInt(d), "reason" := JString(reason)])
  }

  /** The delay bound is inclusive: 30 days passes, one second more fails,
      as does -5. */
  lemma DelayBoundaries(ctx: ToolContext, tasks: seq<Task>, env: Env, reason: string)
    requires !ctx.isHeartbeat && PendingFor(tasks, ctx.sessionId) < MaxPendingPerSession
    ensures StoreAnswers(env) ==> Execute(ctx, Args(2_592_000, reason), tasks, env).result.Ok?
    ensures Execute(ctx, Args(2_592_001, reason), tasks, env).result == Err(Agent(TooLongMessage))
    ensures Execute(ctx, Args(-5, reason), tasks, env).result == Err(Agent(NotPositiveMessage))
  {
    assert AsI64(JInt(2_592_000)) == Some(2_592_000);
    assert AsI64(JInt(2_592_001)) == Some(2_592_001);
    assert AsI64(JInt(-5)) == Some(-5);
  }

  /** No successful call ever leaves a session with more than five pending
      tasks, and other sessions' counts do not move. */
  lemma PendingCapKept(ctx: ToolContext, args: Json, tasks: seq<Task>, env: Env, other: string)
    requires Execute(ctx, args, tasks, env).result.Ok?
    ensures PendingFor(Execute(ctx, args, tasks, env).tasks, ctx.sessionId) <= MaxPendingPerSession
    ensures PendingFor(Execute(ctx, args, tasks, env).tasks, ctx.sessionId) == PendingFor(tasks, ctx.sessionId) + 1
    ensures other != ctx.sessionId ==>
              PendingFor(Execute(ctx, args, tasks, env).tasks, other) == PendingFor(tasks, other)
  {
    var o := Execute(ctx, args, tasks, env);
    ExecuteOkIff(ctx, args, tasks, env);
    ExecuteRecords(ctx, args, tasks, env);
    var t := o.tasks[|tasks|];
    PendingForAppend(tasks, [t], ctx.sessionId);
    PendingForAppend(tasks, [t], other);
  }

  /** Five pending tasks block a sixth for that session. */
  lemma SixthRefused(ctx: ToolContext, args: Json, tasks: seq<Task>, env: Env)
    requires !ctx.isHeartbeat && ValidArgs(args) && PendingFor(tasks, ctx.sessionId) == 5
    ensures env.countError.None? ==> Execute(ctx, args, tasks, env).result == Err(Agent(TooManyMessage(5)))
    ensures env.countError.Some? ==> Execute(ctx, args, tasks, env).result == Err(env.countError.value)
  {
  }

  /** A failure of the task store is passed back to the caller unchanged,
      and nothing is recorded: the count is taken before the cap is checked,
      and the insert comes after it. */
  lemma StoreErrorsPassedThrough(ctx: ToolContext, args: Json, tasks: seq<Task>, env: Env)
    requires !ctx.isHeartbeat && ValidArgs(args)
    ensures env.countError.Some? ==>
              Execute(ctx, args, tasks, env) == Outcome(Err(env.countError.value), tasks)
    ensures env.countError.None? && PendingFor(tasks, ctx.sessionId) < MaxPendingPerSession && env.scheduleError.Some? ==>
              Execute(ctx, args, tasks, env) == Outcome(Err(env.scheduleError.value), tasks)
    ensures env.countError.None? && PendingFor(tasks, ctx.sessionId) >= MaxPendingPerSession ==>
              Execute(ctx, args, tasks, env).result.Err? && Execute(ctx, args, tasks, env).result.error.Agent?
  {
  }

  /** The cap is per session: with session `s1` full, a valid call for
      another session with room succeeds. */
  lemma CapIsPerSession(ctx: ToolContext, args: Json, tasks: seq<Task>, env: Env, s1: string)
    requires !ctx.isHeartbeat && ValidArgs(args) && StoreAnswers(env) && ctx.sessionId != s1
    requires PendingFor(tasks, s1) >= MaxPendingPerSession
    requires PendingFor(tasks, ctx.sessionId) < MaxPendingPerSession
    ensures Execute(ctx, args, tasks, env).result.Ok?
  {
  }

  /** Filling a session through the tool itself: `k` calls that stay
      within the cap each add one pending task to that session, while the
      count of every other session is untouched.  With five, `SixthRefused`
      then applies to the next call. */
  lemma {:induction false} FillSession(ctx: ToolContext, args: Json, tasks: seq<Task>, env: Env, k: nat, other: string)
    requires !ctx.isHeartbeat && ValidArgs(args) && StoreAnswers(env)
    requires PendingFor(tasks, ctx.sessionId) + k <= MaxPendingPerSession
    requires other != ctx.sessionId
    ensures PendingFor(Repeatedly(ctx, args, tasks, env, k), ctx.sessionId) == PendingFor(tasks, ctx.sessionId) + k
    ensures PendingFor(Repeatedly(ctx, args, tasks, env, k), other) == PendingFor(tasks, other)
    decreases k
  {
    if k > 0 {
      FillSession(ctx, args, tasks, env, k - 1, other);
      StepCounts(ctx, args, Repeatedly(ctx, args, tasks, env, k - 1), env, other);
    }
  }

  /** One successful call's effect on the pending counts. */
  lemma StepCounts(ctx: ToolContext, args: Json, tasks: seq<Task>, env: Env, other: string)
    requires !ctx.isHeartbeat && ValidArgs(args) && StoreAnswers(env)
    requires PendingFor(tasks, ctx.sessionId) < MaxPendingPerSession
    requires other != ctx.sessionId
    ensures PendingFor(Execute(ctx, args, tasks, env).tasks, ctx.sessionId) == PendingFor(tasks, ctx.sessionId) + 1
    ensures PendingFor(Execute(ctx, args, tasks, env).tasks, other) == PendingFor(tasks, other)
  {
    ExecuteOkIff(ctx, args, tasks, env);
    PendingCapKept(ctx, args, tasks, env, other);
  }

  /** The task table after `k` identical calls. */
  function Repeatedly(ctx: ToolContext, args: Json, tasks: seq<Task>, env: Env, k: nat): seq<Task>
    decreases k
  {
    if k == 0 then tasks else Execute(ctx, args, Repeatedly(ctx, args, tasks, env, k - 1), env).tasks
  }
}
