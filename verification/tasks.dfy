/** The Cloud Tasks endpoints of app/tasks.py. A reminder row is delivered at
    most once: it is sent, marked "sent", and, when it repeats, a copy is
    stored for the next occurrence and a task is armed to fire it. The
    reminder store is a map from document id to row, the chat messages sent
    form an outbox, and the armed tasks form a queue. */
module Tasks {
  import opened Wrappers
  import opened Text
  import opened Calendar
  import opened Reminders
  import Webhook

  datatype TasksConfig = TasksConfig(
    projectId: Option<string>,
    location: Option<string>,
    queue: Option<string>,
    baseUrl: Option<string>,
    token: Option<string>)

  /** Request or task headers, in order; names compare case-insensitively. */
  type Headers = seq<(string, string)>

  const TokenHeader: string := "X-Tasks-Token"

  /** Header `i` is the first whose name matches `name`, ignoring case. */
  predicate FirstMatchAt(headers: Headers, name: string, i: int) {
    && 0 <= i < |headers|
    && Lower(headers[i].0) == Lower(name)
    && forall j :: 0 <= j < i ==> Lower(headers[j].0) != Lower(name)
  }

  /** The value of the first header whose name matches `name`, ignoring case. */
  function HeaderGet(headers: Headers, name: string): (r: Option<string>)
    ensures r.None? <==> forall i :: 0 <= i < |headers| ==> Lower(headers[i].0) != Lower(name)
    ensures r.Some? ==> exists i :: FirstMatchAt(headers, name, i) && headers[i].1 == r.value
  {
    if |headers| == 0 then None
    else if Lower(headers[0].0) == Lower(name) then
      assert FirstMatchAt(headers, name, 0);
      Some(headers[0].1)
    else
      ShiftFirstMatch(headers, name);
      HeaderGet(headers[1..], name)
  }

  lemma ShiftFirstMatch(headers: Headers, name: string)
    requires |headers| > 0 && Lower(headers[0].0) != Lower(name)
    ensures forall i :: FirstMatchAt(headers[1..], name, i) ==>
      FirstMatchAt(headers, name, i + 1) && headers[i + 1] == headers[1..][i]
    ensures (forall i :: 0 <= i < |headers[1..]| ==> Lower(headers[1..][i].0) != Lower(name)) ==>
      forall i :: 0 <= i < |headers| ==> Lower(headers[i].0) != Lower(name)
  {
    forall i | FirstMatchAt(headers[1..], name, i)
      ensures FirstMatchAt(headers, name, i + 1)
    {
      forall j | 0 <= j < i + 1
        ensures Lower(headers[j].0) != Lower(name)
      {
        if j > 0 {
          assert headers[j] == headers[1..][j - 1];
        }
      }
    }
    if forall i :: 0 <= i < |headers[1..]| ==> Lower(headers[1..][i].0) != Lower(name) {
      forall i | 0 <= i < |headers|
        ensures Lower(headers[i].0) != Lower(name)
      {
        if i > 0 {
          assert headers[i] == headers[1..][i - 1];
        }
      }
    }
  }

  /** `_verify_tasks_auth`: with no token configured every request passes;
      otherwise the first `X-Tasks-Token` header must equal the token. */
  function VerifyTasksAuth(headers: Headers, token: Option<string>): (r: bool)
    ensures !Truthy(token) ==> r
    ensures Truthy(token) ==>
      (r <==> exists i :: FirstMatchAt(headers, TokenHeader, i) && headers[i].1 == token.value)
  {
    !Truthy(token) || HeaderGet(headers, TokenHeader) == Some(token.value)
  }

  /** The body of a task: the id of the reminder it fires. */
  datatype TaskPayload = RemindPayload(reminderId: string)

  /** The Cloud Tasks task `build_task` submits (always a POST). */
  datatype HttpTask = HttpTask(
    parent: string,
    url: string,
    headers: Headers,
    payload: TaskPayload,
    scheduleTime: Option<Instant>)

  datatype TaskError = ConfigMissing | BaseRequired

  /** The queue's resource name, as `queue_path` formats it. */
  function QueuePath(project: string, location: string, queue: string): string {
    "projects/" + project + "/locations/" + location + "/queues/" + queue
  }

  /** `build_task`: validates the configuration, then builds the task
      addressed to the base URL plus `path`, carrying the shared token when
      one is configured. Submitting it is the caller's effect. */
  function BuildTask(cfg: TasksConfig, path: string, payload: TaskPayload, scheduleTime: Option<Instant>)
    : (r: Result<HttpTask, TaskError>)
    ensures r == Err(ConfigMissing) <==> !Truthy(cfg.projectId) || !Truthy(cfg.location) || !Truthy(cfg.queue)
    ensures r == Err(BaseRequired) <==>
      Truthy(cfg.projectId) && Truthy(cfg.location) && Truthy(cfg.queue) && !Truthy(cfg.baseUrl)
    ensures r.Ok? ==>
      && r.value.parent == QueuePath(cfg.projectId.value, cfg.location.value, cfg.queue.value)
      && r.value.url == Webhook.BuildWebhookUrl(cfg.baseUrl.value, path)
      && HeaderGet(r.value.headers, "Content-Type") == Some("application/json")
      && HeaderGet(r.value.headers, TokenHeader) == (if Truthy(cfg.token) then cfg.token else None)
      && r.value.payload == payload
      && r.value.scheduleTime == scheduleTime
  {
    if !Truthy(cfg.projectId) || !Truthy(cfg.location) || !Truthy(cfg.queue) then Err(ConfigMissing)
    else if !Truthy(cfg.baseUrl) then Err(BaseRequired)
    else
      var base := [("Content-Type", "application/json")];
      var headers := if Truthy(cfg.token) then base + [(TokenHeader, cfg.token.value)] else base;
      ContentTypeIsNotToken();
      Ok(HttpTask(QueuePath(cfg.projectId.value, cfg.location.value, cfg.queue.value),
                  RStripSlashes(cfg.baseUrl.value) + path, headers, payload, scheduleTime))
  }

  lemma ContentTypeIsNotToken()
    ensures Lower("Content-Type") == "content-type"
    ensures Lower(TokenHeader) == "x-tasks-token"
  {
  }

  /** A task built from a configuration is accepted by the endpoints that
      check the same configuration's token. */
  lemma BuiltTaskIsAuthorized(cfg: TasksConfig, path: string, payload: TaskPayload, scheduleTime: Option<Instant>)
    requires BuildTask(cfg, path, payload, scheduleTime).Ok?
    ensures VerifyTasksAuth(BuildTask(cfg, path, payload, scheduleTime).value.headers, cfg.token)
  {
  }

  // ---------------------------------------------------------------------
  // Reminder rows and the world the endpoints act on
  // ---------------------------------------------------------------------

  /** A reminder document; any field may be missing. */
  datatype Reminder = Reminder(
    userId: Option<int>,
    chatId: Option<int>,
    text: Option<string>,
    scheduleAtUtc: Option<Instant>,
    timezone: Option<string>,
    repeat: Option<string>,
    status: Option<string>,
    createdAt: Option<Instant>,
    sentAt: Option<Instant>,
    originalTimePhrase: Option<string>)

  /** A document with no field at all: `{}` is falsy, so it reads as missing. */
  predicate EmptyDocument(row: Reminder) {
    row == Reminder(None, None, None, None, None, None, None, None, None, None)
  }

  /** The reminder store, the chat messages sent, and the tasks armed. */
  datatype World = World(
    rows: map<string, Reminder>,
    outbox: seq<(Option<int>, string)>,
    armed: seq<HttpTask>)

  datatype Response = Plain(status: int, text: string) | SentCount(sent: nat) | InternalError

  const OverdueHead: string := "Просроченное напоминание"

  predicate IsOverdue(row: Reminder, now: Instant) {
    row.scheduleAtUtc.Some? && row.scheduleAtUtc.value < now
  }

  /** The chat text of a delivery: the row's text, behind a notice (naming the
      original time phrase, when there is one) if the row is already late. */
  function DeliveredText(row: Reminder, now: Instant): (r: string)
    ensures !IsOverdue(row, now) ==> r == row.text.GetOr("")
    ensures IsOverdue(row, now) ==>
      var text := row.text.GetOr("");
      && |OverdueHead| < |r| - |text| && r[|r| - |text|..] == text && r[|r| - |text| - 1] == '\n'
      && r[..|OverdueHead|] == OverdueHead
      && (row.originalTimePhrase.GetOr("") != "" ==>
            Contains(r[..|r| - |text| - 1], row.originalTimePhrase.GetOr("")))
    ensures IsOverdue(row, now) && row.originalTimePhrase.GetOr("") == "" ==>
      r == OverdueHead + ".\n" + row.text.GetOr("")
    ensures IsOverdue(row, now) && row.originalTimePhrase.GetOr("") != "" ==>
      r == OverdueHead + " (было: " + row.originalTimePhrase.GetOr("") + ").\n" + row.text.GetOr("")
  {
    var text := row.text.GetOr("");
    var phrase := row.originalTimePhrase.GetOr("");
    if !IsOverdue(row, now) then text
    else if phrase != "" then
      var head := OverdueHead + " (было: " + phrase + ").";
      assert OccursAt(head, phrase, |OverdueHead| + 8);
      assert (head + "\n" + text)[..|head|] == head;
      assert head + "\n" + text == OverdueHead + " (было: " + phrase + ").\n" + text;
      head + "\n" + text
    else
      OverdueHead + ".\n" + text
  }

  /** The row is marked delivered at `now`. */
  function MarkSent(rows: map<string, Reminder>, id: string, now: Instant): (r: map<string, Reminder>)
    requires id in rows
    ensures r.Keys == rows.Keys
    ensures r[id].status == Some("sent") && r[id].sentAt == Some(now)
    ensures r[id].(status := rows[id].status, sentAt := rows[id].sentAt) == rows[id]
    ensures forall k :: k in rows && k != id ==> r[k] == rows[k]
  {
    rows[id := rows[id].(status := Some("sent"), sentAt := Some(now))]
  }

  /** The row asks for a follow-up occurrence. */
  predicate Recurs(row: Reminder) {
    row.repeat.GetOr("none") != "none" && row.scheduleAtUtc.Some? && Truthy(row.timezone)
  }

  function NextSchedule(row: Reminder, zones: Zones): Result<Option<Instant>, ScheduleError>
    requires Recurs(row)
  {
    ComputeNextSchedule(zones, row.scheduleAtUtc.value, row.repeat.GetOr("none"), row.timezone.value)
  }

  /** The row stored for the next occurrence: same recipient, text, zone,
      repetition and phrase; scheduled at `next`. */
  function FollowUp(row: Reminder, next: Instant, now: Instant): (r: Reminder)
    requires Recurs(row)
    ensures r.status == Some("scheduled") && r.scheduleAtUtc == Some(next) && r.sentAt.None?
    ensures Recurs(r) && r.timezone == row.timezone && r.repeat.GetOr("none") == row.repeat.GetOr("none")
    ensures r.userId == row.userId && r.chatId == row.chatId && r.text == Some(row.text.GetOr(""))
    ensures r.originalTimePhrase == Some(row.originalTimePhrase.GetOr("")) && r.createdAt == Some(now)
  {
    Reminder(row.userId, row.chatId, Some(row.text.GetOr("")), Some(next), row.timezone,
             Some(row.repeat.GetOr("none")), Some("scheduled"), Some(now), None,
             Some(row.originalTimePhrase.GetOr("")))
  }

  /** The row repeats and a next occurrence was computed for it. */
  predicate Reschedules(row: Reminder, zones: Zones) {
    Recurs(row) && NextSchedule(row, zones).Ok? && NextSchedule(row, zones).value.Some?
  }

  function NextTime(row: Reminder, zones: Zones): Instant
    requires Reschedules(row, zones)
  {
    NextSchedule(row, zones).value.value
  }

  /** The remind task one delivery arms: the task for the follow-up stored
      as `newId`, when there is a follow-up and the task can be built. */
  function ArmedFor(row: Reminder, newId: string, cfg: TasksConfig, zones: Zones): seq<HttpTask> {
    if Reschedules(row, zones) && BuildTask(cfg, "/tasks/remind", RemindPayload(newId), Some(NextTime(row, zones))).Ok?
    then [BuildTask(cfg, "/tasks/remind", RemindPayload(newId), Some(NextTime(row, zones))).value]
    else []
  }

  /** Delivering `row` raises: it repeats, and either the next occurrence
      cannot be computed or there is one but the task cannot be built. */
  predicate Raises(row: Reminder, cfg: TasksConfig, zones: Zones) {
    && Recurs(row)
    && (|| NextSchedule(row, zones).Err?
        || (&& NextSchedule(row, zones).value.Some?
            && (!Truthy(cfg.projectId) || !Truthy(cfg.location) || !Truthy(cfg.queue) || !Truthy(cfg.baseUrl))))
  }

  /** What delivering `row`, stored as `id`, does to the world: one message,
      the row marked sent, the follow-up stored as `newId` exactly when there
      is a next occurrence, its remind task armed, and nothing else. */
  predicate DeliveredOne(world: World, w: World, id: string, row: Reminder, newId: string,
                         cfg: TasksConfig, zones: Zones, now: Instant) {
    && w.outbox == world.outbox + [(row.chatId, DeliveredText(row, now))]
    && id in world.rows && id in w.rows
    && w.rows[id] == world.rows[id].(status := Some("sent"), sentAt := Some(now))
    && (forall k :: k in world.rows && k != id ==> k in w.rows && w.rows[k] == world.rows[k])
    && (forall k :: k in w.rows ==> k in world.rows || k == newId)
    && (newId in w.rows <==> Reschedules(row, zones))
    && (Reschedules(row, zones) ==> newId in w.rows && w.rows[newId] == FollowUp(row, NextTime(row, zones), now))
    && w.armed == world.armed + ArmedFor(row, newId, cfg, zones)
  }

  /** What one delivery did, and whether it raised part-way. */
  datatype Delivery = Delivery(world: World, raised: bool)

  /** The shared body of both endpoints for one due row: send, mark sent,
      then store and arm the next occurrence when the row repeats. An error
      from the schedule computation or from building the task propagates, but
      what was done before it stays done. */
  function Deliver(world: World, cfg: TasksConfig, id: string, row: Reminder, now: Instant,
                   zones: Zones, newId: string): (d: Delivery)
    requires id in world.rows && newId !in world.rows
    ensures d.world.outbox == world.outbox + [(row.chatId, DeliveredText(row, now))]
    ensures id in d.world.rows && d.world.rows[id].status == Some("sent") && d.world.rows[id].sentAt == Some(now)
    ensures d.world.rows[id] == world.rows[id].(status := Some("sent"), sentAt := Some(now))
    ensures forall k :: k in world.rows && k != id ==> k in d.world.rows && d.world.rows[k] == world.rows[k]
    ensures newId in d.world.rows <==> Recurs(row) && NextSchedule(row, zones).Ok? && NextSchedule(row, zones).value.Some?
    ensures d.world.rows.Keys <= world.rows.Keys + {newId}
    ensures newId in d.world.rows ==>
      d.world.rows[newId] == FollowUp(row, NextSchedule(row, zones).value.value, now)
    ensures |world.armed| <= |d.world.armed| <= |world.armed| + 1
    ensures d.world.armed[..|world.armed|] == world.armed
    ensures |d.world.armed| > |world.armed| ==>
      && newId in d.world.rows
      && d.world.armed[|world.armed|].payload == RemindPayload(newId)
      && d.world.armed[|world.armed|].scheduleTime == d.world.rows[newId].scheduleAtUtc
      && VerifyTasksAuth(d.world.armed[|world.armed|].headers, cfg.token)
    ensures |d.world.armed| > |world.armed| ==>
      var b := BuildTask(cfg, "/tasks/remind", RemindPayload(newId), d.world.rows[newId].scheduleAtUtc);
      b.Ok? && b.value == d.world.armed[|world.armed|]
    ensures d.world.armed == world.armed + ArmedFor(row, newId, cfg, zones)
    ensures d.raised <==> Raises(row, cfg, zones)
    ensures DeliveredOne(world, d.world, id, row, newId, cfg, zones, now)
    ensures !d.raised && newId in d.world.rows ==> |d.world.armed| == |world.armed| + 1
  {
    var sent := world.(outbox := world.outbox + [(row.chatId, DeliveredText(row, now))],
                       rows := MarkSent(world.rows, id, now));
    if !Recurs(row) then Delivery(sent, false)
    else match NextSchedule(row, zones)
      case Err(_) => Delivery(sent, true)
      case Ok(None) => Delivery(sent, false)
      case Ok(Some(next)) =>
        var stored := sent.(rows := sent.rows[newId := FollowUp(row, next, now)]);
        var built := BuildTask(cfg, "/tasks/remind", RemindPayload(newId), Some(next));
        match built
        case Err(_) => Delivery(stored, true)
        case Ok(task) =>
          BuiltTaskIsAuthorized(cfg, "/tasks/remind", RemindPayload(newId), Some(next));
          Delivery(stored.(armed := stored.armed + [task]), false)
  }

  // ---------------------------------------------------------------------
  // POST /tasks/remind
  // ---------------------------------------------------------------------

  /** The JSON body of a remind request: unparsable, or an object whose
      `reminder_id` may be missing. */
  datatype RemindBody = Malformed | Body(reminderId: Option<string>)

  /** `handle_tasks_remind`. `newId` is the id the store hands out if a
      follow-up row is created. */
  function HandleRemind(world: World, cfg: TasksConfig, headers: Headers, body: RemindBody,
                        now: Instant, zones: Zones, newId: string): (r: (World, Response))
    requires newId !in world.rows
    ensures !VerifyTasksAuth(headers, cfg.token) ==> r == (world, Plain(401, "unauthorized"))
    ensures VerifyTasksAuth(headers, cfg.token) && body.Malformed? ==> r == (world, InternalError)
    ensures VerifyTasksAuth(headers, cfg.token) && body.Body? && !Truthy(body.reminderId) ==>
      r == (world, Plain(400, "missing reminder_id"))
    ensures VerifyTasksAuth(headers, cfg.token) && body.Body? && Truthy(body.reminderId) ==>
      var id := body.reminderId.value;
      && (id !in world.rows || EmptyDocument(world.rows[id]) ==> r == (world, Plain(404, "not found")))
      && (id in world.rows && !EmptyDocument(world.rows[id]) && world.rows[id].status != Some("scheduled") ==>
            r == (world, Plain(200, "already handled")))
      && (id in world.rows && world.rows[id].status == Some("scheduled")
          && world.rows[id].scheduleAtUtc.Some? && world.rows[id].scheduleAtUtc.value > now ==>
            r == (world, Plain(200, "not due")))
    ensures VerifyTasksAuth(headers, cfg.token) && body.Body? && Truthy(body.reminderId) ==>
      var id := body.reminderId.value;
      id in world.rows && world.rows[id].status == Some("scheduled")
      && !(world.rows[id].scheduleAtUtc.Some? && world.rows[id].scheduleAtUtc.value > now) ==>
        var d := Deliver(world, cfg, id, world.rows[id], now, zones, newId);
        && r == (d.world, if d.raised then InternalError else Plain(200, "ok"))
        && (r.1 == InternalError <==> Raises(world.rows[id], cfg, zones))
    ensures r.1 == Plain(200, "ok") || r.1 == InternalError ==>
      r.0 != world ==> body.Body? && Truthy(body.reminderId)
    ensures r.0.outbox != world.outbox ==>
      && body.Body? && Truthy(body.reminderId) && body.reminderId.value in world.rows
      && var row := world.rows[body.reminderId.value];
      && row.status == Some("scheduled")
      && (row.scheduleAtUtc.None? || row.scheduleAtUtc.value <= now)
      && r.0.outbox == world.outbox + [(row.chatId, DeliveredText(row, now))]
      && body.reminderId.value in r.0.rows
      && r.0.rows[body.reminderId.value] == row.(status := Some("sent"), sentAt := Some(now))
      && r.0.armed == world.armed + ArmedFor(row, newId, cfg, zones)
  {
    if !VerifyTasksAuth(headers, cfg.token) then (world, Plain(401, "unauthorized"))
    else match body
      case Malformed => (world, InternalError)
      case Body(reminderId) =>
        if !Truthy(reminderId) then (world, Plain(400, "missing reminder_id"))
        else
          var id := reminderId.value;
          if id !in world.rows || EmptyDocument(world.rows[id]) then (world, Plain(404, "not found"))
          else
            var row := world.rows[id];
            if row.status != Some("scheduled") then (world, Plain(200, "already handled"))
            else if row.scheduleAtUtc.Some? && row.scheduleAtUtc.value > now then (world, Plain(200, "not due"))
            else
              var d := Deliver(world, cfg, id, row, now, zones, newId);
              (d.world, if d.raised then InternalError else Plain(200, "ok"))
  }

  /** A reminder is delivered at most once: replaying the same remind request
      after it went through, whatever its outcome, sends nothing more. */
  lemma RemindIsIdempotent(world: World, cfg: TasksConfig, headers: Headers, id: string,
                           now: Instant, later: Instant, zones: Zones, newId: string, newId2: string)
    requires newId !in world.rows
    requires VerifyTasksAuth(headers, cfg.token)
    requires id != "" && id in world.rows
    requires var first := HandleRemind(world, cfg, headers, Body(Some(id)), now, zones, newId).0;
             first.outbox != world.outbox && newId2 !in first.rows
    ensures var first := HandleRemind(world, cfg, headers, Body(Some(id)), now, zones, newId).0;
            HandleRemind(first, cfg, headers, Body(Some(id)), later, zones, newId2)
              == (first, Plain(200, "already handled"))
  {
  }

  /** The follow-up of a repeating reminder is armed for exactly its own
      schedule, under its own id, with credentials the endpoint accepts. */
  lemma RescheduledReminderIsArmed(world: World, cfg: TasksConfig, headers: Headers, id: string,
                                   now: Instant, zones: Zones, newId: string)
    requires newId !in world.rows
    requires HandleRemind(world, cfg, headers, Body(Some(id)), now, zones, newId).1 == Plain(200, "ok")
    requires newId in HandleRemind(world, cfg, headers, Body(Some(id)), now, zones, newId).0.rows
    ensures var w := HandleRemind(world, cfg, headers, Body(Some(id)), now, zones, newId).0;
            && |w.armed| == |world.armed| + 1
            && w.armed[|world.armed|].payload == RemindPayload(newId)
            && w.armed[|world.armed|].scheduleTime == w.rows[newId].scheduleAtUtc
            && w.rows[newId].status == Some("scheduled")
            && VerifyTasksAuth(w.armed[|world.armed|].headers, cfg.token)
            && w.armed[|world.armed|].url == Webhook.BuildWebhookUrl(cfg.baseUrl.value, "/tasks/remind")
            && w.armed[|world.armed|].parent == QueuePath(cfg.projectId.value, cfg.location.value, cfg.queue.value)
  {
  }

  /** When the queue is not configured, a repeating reminder is still sent
      and its follow-up row still stored, but no task is armed for it and the
      request fails: the follow-up is never fired by this path. */
  lemma UnconfiguredQueueStrandsFollowUp(world: World, cfg: TasksConfig, headers: Headers, id: string,
                                         now: Instant, zones: Zones, newId: string)
    requires newId !in world.rows
    requires VerifyTasksAuth(headers, cfg.token)
    requires id != "" && id in world.rows
    requires world.rows[id].status == Some("scheduled") && world.rows[id].scheduleAtUtc.Some?
    requires world.rows[id].scheduleAtUtc.value <= now
    requires Recurs(world.rows[id])
    requires NextSchedule(world.rows[id], zones).Ok? && NextSchedule(world.rows[id], zones).value.Some?
    requires !Truthy(cfg.queue)
    ensures var (w, resp) := HandleRemind(world, cfg, headers, Body(Some(id)), now, zones, newId);
            && resp == InternalError
            && |w.outbox| == |world.outbox| + 1
            && w.rows[id].status == Some("sent")
            && newId in w.rows && w.rows[newId].status == Some("scheduled")
            && w.armed == world.armed
  {
  }

  // ---------------------------------------------------------------------
  // POST /tasks/sweep
  // ---------------------------------------------------------------------

  /** A listed row the sweep delivers: it has an id and is still scheduled. */
  predicate Eligible(entry: (Option<string>, Reminder)) {
    Truthy(entry.0) && entry.1.status == Some("scheduled")
  }

  function CountEligible(due: seq<(Option<string>, Reminder)>): (n: nat)
    ensures n <= |due|
  {
    if |due| == 0 then 0 else (if Eligible(due[0]) then 1 else 0) + CountEligible(due[1..])
  }

  /** The chat messages a sweep that runs to the end sends: one per eligible
      listed row, in listing order. */
  function SentMessages(due: seq<(Option<string>, Reminder)>, now: Instant): seq<(Option<int>, string)>
  {
    if |due| == 0 then []
    else (if Eligible(due[0]) then [(due[0].1.chatId, DeliveredText(due[0].1, now))] else [])
         + SentMessages(due[1..], now)
  }

  /** No eligible listed row raises when delivered. */
  predicate NoneRaise(due: seq<(Option<string>, Reminder)>, cfg: TasksConfig, zones: Zones) {
    forall i :: 0 <= i < |due| && Eligible(due[i]) ==> !Raises(due[i].1, cfg, zones)
  }

  /** The listed rows a sweep gets through: all of them, or those up to and
      including the first eligible row whose delivery raises. */
  function Handled(due: seq<(Option<string>, Reminder)>, cfg: TasksConfig, zones: Zones)
    : (h: seq<(Option<string>, Reminder)>)
    ensures |h| <= |due|
  {
    if |due| == 0 then []
    else if Eligible(due[0]) && Raises(due[0].1, cfg, zones) then [due[0]]
    else [due[0]] + Handled(due[1..], cfg, zones)
  }

  /** The rows a sweep gets through are a prefix of the listing: all of it
      when no eligible row raises, and otherwise they end at an eligible row
      that raises, with no eligible row before it raising. */
  lemma {:induction false} HandledStopsAtFirstRaise(due: seq<(Option<string>, Reminder)>,
                                                    cfg: TasksConfig, zones: Zones)
    ensures |Handled(due, cfg, zones)| <= |due|
    ensures Handled(due, cfg, zones) == due[..|Handled(due, cfg, zones)|]
    ensures NoneRaise(due, cfg, zones) ==> Handled(due, cfg, zones) == due
    ensures !NoneRaise(due, cfg, zones) ==>
      var h := Handled(due, cfg, zones);
      && |h| > 0 && Eligible(h[|h| - 1]) && Raises(h[|h| - 1].1, cfg, zones)
      && NoneRaise(h[..|h| - 1], cfg, zones)
    decreases |due|
  {
    if |due| > 0 {
      var h := Handled(due, cfg, zones);
      if Eligible(due[0]) && Raises(due[0].1, cfg, zones) {
        assert h == due[..1];
        assert !NoneRaise(due, cfg, zones);
      } else {
        var t := Handled(due[1..], cfg, zones);
        HandledStopsAtFirstRaise(due[1..], cfg, zones);
        assert h == [due[0]] + t;
        assert due[..|h|] == [due[0]] + due[1..][..|t|];
        if Eligible(due[0]) {
          DeliveredRowSends(due, 0, cfg, zones);
        } else {
          SkippedRowSends(due, 0, cfg, zones);
        }
        if !NoneRaise(due, cfg, zones) {
          var hp := h[..|h| - 1];
          assert hp == [due[0]] + t[..|t| - 1];
          assert hp[1..] == t[..|t| - 1];
          if Eligible(due[0]) {
            DeliveredRowSends(hp, 0, cfg, zones);
          } else {
            SkippedRowSends(hp, 0, cfg, zones);
          }
        }
      }
    }
  }

  /** A sweep that runs to the end sends one message per eligible row. */
  lemma {:induction false} SentMessagesCount(due: seq<(Option<string>, Reminder)>, now: Instant)
    ensures |SentMessages(due, now)| == CountEligible(due)
    decreases |due|
  {
    if |due| > 0 {
      SentMessagesCount(due[1..], now);
    }
  }

  /** The ids the store may hand out are new and pairwise distinct. */
  predicate FreshIds(rows: map<string, Reminder>, ids: seq<string>) {
    forall i, j :: 0 <= i < |ids| && 0 <= j < |ids| ==> ids[i] !in rows && (i != j ==> ids[i] != ids[j])
  }

  /** Every id the listing returns names a stored row. */
  predicate ListedFrom(rows: map<string, Reminder>, due: seq<(Option<string>, Reminder)>) {
    forall k :: 0 <= k < |due| && Truthy(due[k].0) ==> due[k].0.value in rows
  }

  /** Some eligible listed row has id `key`. */
  predicate Delivers(due: seq<(Option<string>, Reminder)>, key: string) {
    exists i :: 0 <= i < |due| && Eligible(due[i]) && due[i].0.value == key
  }

  /** Every eligible listed row is stored and marked sent at `now`, its other
      fields as they were in `before`. */
  predicate AllMarkedSent(rows: map<string, Reminder>, before: map<string, Reminder>,
                          due: seq<(Option<string>, Reminder)>, now: Instant) {
    forall k :: 0 <= k < |due| && Eligible(due[k]) ==>
      && due[k].0.value in before && due[k].0.value in rows
      && rows[due[k].0.value] == before[due[k].0.value].(status := Some("sent"), sentAt := Some(now))
  }

  /** The follow-up rows a sweep through the listed rows `h` stores: the
      `i`-th row's follow-up is stored as `ids[i]` exactly when that row is
      eligible and has a next occurrence; no other new key appears. */
  predicate StoresFollowUps(rows: map<string, Reminder>, before: map<string, Reminder>,
                            h: seq<(Option<string>, Reminder)>, ids: seq<string>, now: Instant, zones: Zones)
    requires |h| <= |ids|
  {
    && (forall i :: 0 <= i < |h| ==> (ids[i] in rows <==> Eligible(h[i]) && Reschedules(h[i].1, zones)))
    && (forall i :: 0 <= i < |h| && Eligible(h[i]) && Reschedules(h[i].1, zones) ==>
          ids[i] in rows && rows[ids[i]] == FollowUp(h[i].1, NextTime(h[i].1, zones), now))
    && (forall k :: k in rows ==> k in before || k in ids[..|h|])
  }

  /** The remind tasks a sweep through the listed rows `h` arms, in listing order. */
  function ArmedBy(h: seq<(Option<string>, Reminder)>, ids: seq<string>, cfg: TasksConfig, zones: Zones)
    : seq<HttpTask>
    requires |h| <= |ids|
  {
    if |h| == 0 then []
    else (if Eligible(h[0]) then ArmedFor(h[0].1, ids[0], cfg, zones) else [])
         + ArmedBy(h[1..], ids[1..], cfg, zones)
  }

  /** What a sweep that got through the listed rows `h` has done to the world:
      one message per eligible row, in order; each of those rows marked sent;
      every other stored row untouched; their follow-ups stored under the
      matching ids; and their remind tasks armed, in order. */
  predicate SweepEffects(world: World, w: World, h: seq<(Option<string>, Reminder)>, ids: seq<string>,
                         cfg: TasksConfig, zones: Zones, now: Instant)
    requires |h| <= |ids|
  {
    && w.outbox == world.outbox + SentMessages(h, now)
    && world.rows.Keys <= w.rows.Keys
    && AllMarkedSent(w.rows, world.rows, h, now)
    && (forall k :: k in world.rows && !Delivers(h, k) ==> w.rows[k] == world.rows[k])
    && StoresFollowUps(w.rows, world.rows, h, ids, now, zones)
    && w.armed == world.armed + ArmedBy(h, ids, cfg, zones)
  }

  /** The loop of `handle_tasks_sweep` over the listed rows, from the first:
      the world afterwards and the count sent, or `None` when a delivery
      raised (the world then holds what was done up to that point). The
      `i`-th row uses `newIds[i]` if it creates a follow-up. */
  function SweepLoop(world: World, cfg: TasksConfig, due: seq<(Option<string>, Reminder)>,
                     now: Instant, zones: Zones, newIds: seq<string>): (r: (World, Option<nat>))
    requires |newIds| == |due| && FreshIds(world.rows, newIds) && ListedFrom(world.rows, due)
    ensures world.rows.Keys <= r.0.rows.Keys
    ensures |world.outbox| <= |r.0.outbox| && r.0.outbox[..|world.outbox|] == world.outbox
    ensures r.1.Some? ==> r.1.value == CountEligible(due) && |r.0.outbox| == |world.outbox| + r.1.value
    ensures r.1.Some? ==> AllMarkedSent(r.0.rows, world.rows, due, now)
    ensures forall k :: k in world.rows && !Delivers(due, k) ==> r.0.rows[k] == world.rows[k]
    ensures r.1.Some? <==> NoneRaise(due, cfg, zones)
    ensures r.1.Some? ==> r.0.outbox == world.outbox + SentMessages(due, now)
    ensures SweepEffects(world, r.0, Handled(due, cfg, zones), newIds, cfg, zones, now)
    decreases |due|, 1
  {
    if |due| == 0 then (world, Some(0))
    else if !Eligible(due[0]) then
      SweepStepKeeps(world.rows, world.rows, due, newIds);
      var r := SweepLoop(world, cfg, due[1..], now, zones, newIds[1..]);
      SkippedRowSends(due, now, cfg, zones);
      SkippedRowEffects(world, r.0, due, newIds, cfg, zones, now);
      SweepSummary(world, r.0, due, newIds, cfg, zones, now);
      r
    else
      SweepDelivered(world, cfg, due, now, zones, newIds)
  }

  /** The sweep loop when the first listed row is eligible: deliver it, then
      go on with the rest unless the delivery raised. */
  function SweepDelivered(world: World, cfg: TasksConfig, due: seq<(Option<string>, Reminder)>,
                          now: Instant, zones: Zones, newIds: seq<string>): (r: (World, Option<nat>))
    requires |newIds| == |due| && FreshIds(world.rows, newIds) && ListedFrom(world.rows, due)
    requires |due| > 0 && Eligible(due[0])
    ensures world.rows.Keys <= r.0.rows.Keys
    ensures |world.outbox| <= |r.0.outbox| && r.0.outbox[..|world.outbox|] == world.outbox
    ensures r.1.Some? ==> r.1.value == CountEligible(due) && |r.0.outbox| == |world.outbox| + r.1.value
    ensures r.1.Some? ==> AllMarkedSent(r.0.rows, world.rows, due, now)
    ensures forall k :: k in world.rows && !Delivers(due, k) ==> r.0.rows[k] == world.rows[k]
    ensures r.1.Some? <==> NoneRaise(due, cfg, zones)
    ensures r.1.Some? ==> r.0.outbox == world.outbox + SentMessages(due, now)
    ensures SweepEffects(world, r.0, Handled(due, cfg, zones), newIds, cfg, zones, now)
    decreases |due|, 0
  {
    var d := Deliver(world, cfg, due[0].0.value, due[0].1, now, zones, newIds[0]);
    SweepStepKeeps(world.rows, d.world.rows, due, newIds);
    DeliveredRowSends(due, now, cfg, zones);
    if d.raised then
      DeliveredRowEffects(world, d.world, d.world, due, newIds, cfg, zones, now, []);
      SweepSummary(world, d.world, due, newIds, cfg, zones, now);
      (d.world, None)
    else
      var r := SweepLoop(d.world, cfg, due[1..], now, zones, newIds[1..]);
      DeliveredRowEffects(world, d.world, r.0, due, newIds, cfg, zones, now, Handled(due[1..], cfg, zones));
      SweepSummary(world, r.0, due, newIds, cfg, zones, now);
      if r.1.Some? then (r.0, Some(1 + r.1.value)) else (r.0, None)
  }

  /** A skipped row sends nothing and cannot raise. */
  lemma SkippedRowSends(due: seq<(Option<string>, Reminder)>, now: Instant, cfg: TasksConfig, zones: Zones)
    requires |due| > 0 && !Eligible(due[0])
    ensures SentMessages(due, now) == SentMessages(due[1..], now)
    ensures NoneRaise(due, cfg, zones) <==> NoneRaise(due[1..], cfg, zones)
  {
    assert [] + SentMessages(due[1..], now) == SentMessages(due[1..], now);
    if NoneRaise(due[1..], cfg, zones) {
      forall i | 0 <= i < |due| && Eligible(due[i]) ensures !Raises(due[i].1, cfg, zones) {
        assert due[i] == due[1..][i - 1];
      }
    }
    if NoneRaise(due, cfg, zones) {
      forall i | 0 <= i < |due[1..]| && Eligible(due[1..][i]) ensures !Raises(due[1..][i].1, cfg, zones) {
        assert due[1..][i] == due[i + 1];
      }
    }
  }

  /** A delivered row sends its message first, and the sweep completes only
      if neither it nor a later eligible row raises. */
  lemma DeliveredRowSends(due: seq<(Option<string>, Reminder)>, now: Instant, cfg: TasksConfig, zones: Zones)
    requires |due| > 0 && Eligible(due[0])
    ensures SentMessages(due, now) == [(due[0].1.chatId, DeliveredText(due[0].1, now))] + SentMessages(due[1..], now)
    ensures NoneRaise(due, cfg, zones) <==> !Raises(due[0].1, cfg, zones) && NoneRaise(due[1..], cfg, zones)
  {
    if !Raises(due[0].1, cfg, zones) && NoneRaise(due[1..], cfg, zones) {
      forall i | 0 <= i < |due| && Eligible(due[i]) ensures !Raises(due[i].1, cfg, zones) {
        if i > 0 {
          assert due[i] == due[1..][i - 1];
        }
      }
    }
    if NoneRaise(due, cfg, zones) {
      forall i | 0 <= i < |due[1..]| && Eligible(due[1..][i]) ensures !Raises(due[1..][i].1, cfg, zones) {
        assert due[1..][i] == due[i + 1];
      }
    }
  }

  lemma AppendRegroup<T>(a: seq<T>, b: seq<T>, c: seq<T>)
    ensures a + b + c == a + (b + c)
  {
  }

  /** The rows a sweep gets through deliver only ids the listing delivers,
      and name stored rows when the listing does. */
  lemma HandledDelivers(rows: map<string, Reminder>, due: seq<(Option<string>, Reminder)>,
                        cfg: TasksConfig, zones: Zones)
    ensures forall k :: Delivers(Handled(due, cfg, zones), k) ==> Delivers(due, k)
    ensures ListedFrom(rows, due) ==> ListedFrom(rows, Handled(due, cfg, zones))
  {
    var h := Handled(due, cfg, zones);
    HandledStopsAtFirstRaise(due, cfg, zones);
    forall k | Delivers(h, k)
      ensures Delivers(due, k)
    {
      var i :| 0 <= i < |h| && Eligible(h[i]) && h[i].0.value == k;
      assert h[i] == due[i];
    }
    if ListedFrom(rows, due) {
      forall k | 0 <= k < |h| && Truthy(h[k].0)
        ensures h[k].0.value in rows
      {
        assert h[k] == due[k];
      }
    }
  }

  /** The facts the sweep states about the whole listing follow from its
      effects on the rows it got through. */
  lemma SweepSummary(world: World, w: World, due: seq<(Option<string>, Reminder)>, ids: seq<string>,
                     cfg: TasksConfig, zones: Zones, now: Instant)
    requires |ids| == |due|
    requires SweepEffects(world, w, Handled(due, cfg, zones), ids, cfg, zones, now)
    ensures |world.outbox| <= |w.outbox| && w.outbox[..|world.outbox|] == world.outbox
    ensures forall k :: k in world.rows && !Delivers(due, k) ==> w.rows[k] == world.rows[k]
    ensures NoneRaise(due, cfg, zones) ==>
      && w.outbox == world.outbox + SentMessages(due, now)
      && |w.outbox| == |world.outbox| + CountEligible(due)
      && AllMarkedSent(w.rows, world.rows, due, now)
  {
    HandledStopsAtFirstRaise(due, cfg, zones);
    HandledDelivers(world.rows, due, cfg, zones);
    SentMessagesCount(due, now);
    assert (world.outbox + SentMessages(Handled(due, cfg, zones), now))[..|world.outbox|] == world.outbox;
  }

  /** A skipped row adds nothing: what the sweep did for the rest of the
      listing is what it did for the whole. */
  lemma SkippedRowEffects(world: World, w: World, due: seq<(Option<string>, Reminder)>, ids: seq<string>,
                          cfg: TasksConfig, zones: Zones, now: Instant)
    requires |due| > 0 && !Eligible(due[0]) && |ids| == |due| && FreshIds(world.rows, ids)
    requires SweepEffects(world, w, Handled(due[1..], cfg, zones), ids[1..], cfg, zones, now)
    ensures SweepEffects(world, w, Handled(due, cfg, zones), ids, cfg, zones, now)
  {
    var t := Handled(due[1..], cfg, zones);
    var h := Handled(due, cfg, zones);
    assert h == [due[0]] + t;
    assert h[1..] == t;
    SkippedRowSends(h, now, cfg, zones);
    SkippedRowMarks(world.rows, w.rows, h, now);
    FirstIdUnused(world.rows, ids, |t|);
    assert ids[0] !in w.rows;
    FollowUpsShift(w.rows, world.rows, world.rows, h, ids, now, zones);
    assert ArmedBy(h, ids, cfg, zones) == ArmedBy(t, ids[1..], cfg, zones);
  }

  /** The first fresh id is neither stored nor among the next `m` ids. */
  lemma FirstIdUnused(before: map<string, Reminder>, ids: seq<string>, m: nat)
    requires m < |ids| && FreshIds(before, ids)
    ensures ids[0] !in before && ids[0] !in ids[1..][..m]
  {
    forall j | 0 <= j < m
      ensures ids[1..][..m][j] != ids[0]
    {
      assert ids[1..][..m][j] == ids[j + 1];
    }
  }

  /** A skipped first row is neither marked nor delivered. */
  lemma SkippedRowMarks(before: map<string, Reminder>, after: map<string, Reminder>,
                        h: seq<(Option<string>, Reminder)>, now: Instant)
    requires |h| > 0 && !Eligible(h[0])
    requires AllMarkedSent(after, before, h[1..], now)
    requires forall k :: k in before && !Delivers(h[1..], k) ==> k in after && after[k] == before[k]
    ensures AllMarkedSent(after, before, h, now)
    ensures forall k :: k in before && !Delivers(h, k) ==> k in after && after[k] == before[k]
  {
    var t := h[1..];
    forall k | 0 <= k < |h| && Eligible(h[k])
      ensures h[k].0.value in before && h[k].0.value in after
      ensures after[h[k].0.value] == before[h[k].0.value].(status := Some("sent"), sentAt := Some(now))
    {
      assert h[k] == t[k - 1];
    }
    forall k | k in before && !Delivers(h, k)
      ensures k in after && after[k] == before[k]
    {
      forall i | 0 <= i < |t| && Eligible(t[i])
        ensures t[i].0.value != k
      {
        assert t[i] == h[i + 1];
      }
    }
  }

  /** Extending the follow-up facts for the rest of the listing by its first
      row, whose id `ids[0]` is either stored with its follow-up or absent. */
  lemma FollowUpsShift(rows: map<string, Reminder>, mid: map<string, Reminder>, before: map<string, Reminder>,
                       h: seq<(Option<string>, Reminder)>, ids: seq<string>, now: Instant, zones: Zones)
    requires 0 < |h| <= |ids| && FreshIds(before, ids)
    requires StoresFollowUps(rows, mid, h[1..], ids[1..], now, zones)
    requires forall k :: k in mid ==> k in before || k == ids[0]
    requires ids[0] in rows <==> Eligible(h[0]) && Reschedules(h[0].1, zones)
    requires Eligible(h[0]) && Reschedules(h[0].1, zones) ==>
      ids[0] in rows && rows[ids[0]] == FollowUp(h[0].1, NextTime(h[0].1, zones), now)
    ensures StoresFollowUps(rows, before, h, ids, now, zones)
  {
    var t := h[1..];
    assert ids[..|h|] == [ids[0]] + ids[1..][..|t|];
    forall i | 0 < i < |h|
      ensures ids[i] in rows <==> Eligible(h[i]) && Reschedules(h[i].1, zones)
      ensures Eligible(h[i]) && Reschedules(h[i].1, zones) ==>
        ids[i] in rows && rows[ids[i]] == FollowUp(h[i].1, NextTime(h[i].1, zones), now)
    {
      assert h[i] == t[i - 1] && ids[i] == ids[1..][i - 1];
    }
  }

  /** A delivered first row adds its message, its mark, its follow-up and its
      task in front of what the sweep did for the rest of the listing (`rest`,
      empty when the delivery raised and the sweep stopped). */
  lemma DeliveredRowEffects(world: World, mid: World, w: World, due: seq<(Option<string>, Reminder)>,
                            ids: seq<string>, cfg: TasksConfig, zones: Zones, now: Instant,
                            rest: seq<(Option<string>, Reminder)>)
    requires |due| > 0 && Eligible(due[0]) && |ids| == |due|
    requires FreshIds(world.rows, ids) && ListedFrom(world.rows, due)
    requires DeliveredOne(world, mid, due[0].0.value, due[0].1, ids[0], cfg, zones, now)
    requires || (rest == [] && Raises(due[0].1, cfg, zones))
             || (rest == Handled(due[1..], cfg, zones) && !Raises(due[0].1, cfg, zones))
    requires |rest| <= |ids[1..]| && SweepEffects(mid, w, rest, ids[1..], cfg, zones, now)
    ensures SweepEffects(world, w, Handled(due, cfg, zones), ids, cfg, zones, now)
  {
    var h := Handled(due, cfg, zones);
    var id := due[0].0.value;
    assert h == [due[0]] + rest;
    assert h[1..] == rest;
    RestListed(world.rows, due, ids, cfg, zones, rest);
    DeliveredRowQueues(world, mid, w, h, ids, cfg, zones, now);
    DeliveredRowMarks(world.rows, mid.rows, w.rows, h, now);
    FirstIdUnused(world.rows, ids, |rest|);
    FollowUpsShift(w.rows, mid.rows, world.rows, h, ids, now, zones);
  }

  /** The first row's message and task come before those of the rest. */
  lemma DeliveredRowQueues(world: World, mid: World, w: World, h: seq<(Option<string>, Reminder)>,
                           ids: seq<string>, cfg: TasksConfig, zones: Zones, now: Instant)
    requires 0 < |h| <= |ids| && Eligible(h[0])
    requires mid.outbox == world.outbox + [(h[0].1.chatId, DeliveredText(h[0].1, now))]
    requires mid.armed == world.armed + ArmedFor(h[0].1, ids[0], cfg, zones)
    requires w.outbox == mid.outbox + SentMessages(h[1..], now)
    requires w.armed == mid.armed + ArmedBy(h[1..], ids[1..], cfg, zones)
    ensures w.outbox == world.outbox + SentMessages(h, now)
    ensures w.armed == world.armed + ArmedBy(h, ids, cfg, zones)
  {
    DeliveredRowSends(h, now, cfg, zones);
    AppendRegroup(world.outbox, [(h[0].1.chatId, DeliveredText(h[0].1, now))], SentMessages(h[1..], now));
    AppendRegroup(world.armed, ArmedFor(h[0].1, ids[0], cfg, zones), ArmedBy(h[1..], ids[1..], cfg, zones));
  }

  /** The rows the sweep gets through after the first name stored rows, and
      none of them delivers the first row's fresh follow-up id. */
  lemma RestListed(rows: map<string, Reminder>, due: seq<(Option<string>, Reminder)>, ids: seq<string>,
                   cfg: TasksConfig, zones: Zones, rest: seq<(Option<string>, Reminder)>)
    requires |due| > 0 && |ids| == |due| && FreshIds(rows, ids) && ListedFrom(rows, due)
    requires rest == [] || rest == Handled(due[1..], cfg, zones)
    ensures ListedFrom(rows, rest) && !Delivers(rest, ids[0])
  {
    if rest != [] {
      HandledDelivers(rows, due[1..], cfg, zones);
      forall k | 0 <= k < |due[1..]| && Truthy(due[1..][k].0)
        ensures due[1..][k].0.value in rows
      {
        assert due[1..][k] == due[k + 1];
      }
    }
    assert ids[0] !in rows;
  }

  /** The marks a delivered first row leaves survive what the sweep does to
      the rest of the listing, and rows neither delivers stay as they were. */
  lemma DeliveredRowMarks(before: map<string, Reminder>, mid: map<string, Reminder>,
                          after: map<string, Reminder>, h: seq<(Option<string>, Reminder)>, now: Instant)
    requires |h| > 0 && Eligible(h[0]) && ListedFrom(before, h)
    requires h[0].0.value in mid && mid[h[0].0.value] == before[h[0].0.value].(status := Some("sent"), sentAt := Some(now))
    requires forall k :: k in before && k != h[0].0.value ==> k in mid && mid[k] == before[k]
    requires mid.Keys <= after.Keys
    requires AllMarkedSent(after, mid, h[1..], now)
    requires forall k :: k in mid && !Delivers(h[1..], k) ==> after[k] == mid[k]
    ensures AllMarkedSent(after, before, h, now)
    ensures forall k :: k in before && !Delivers(h, k) ==> after[k] == before[k]
  {
    var id := h[0].0.value;
    var t := h[1..];
    assert Delivers(h, id);
    forall k | 0 <= k < |h| && Eligible(h[k])
      ensures h[k].0.value in before && h[k].0.value in after
      ensures after[h[k].0.value] == before[h[k].0.value].(status := Some("sent"), sentAt := Some(now))
    {
      if k > 0 {
        assert h[k] == t[k - 1];
      } else if Delivers(t, id) {
        var i :| 0 <= i < |t| && Eligible(t[i]) && t[i].0.value == id;
        assert t[i] == h[i + 1];
      }
    }
    forall k | k in before && !Delivers(h, k)
      ensures after[k] == before[k]
    {
      forall i | 0 <= i < |t| && Eligible(t[i])
        ensures t[i].0.value != k
      {
        assert t[i] == h[i + 1];
      }
    }
  }

  /** One step of the sweep keeps the loop's preconditions for the rest. */
  lemma SweepStepKeeps(before: map<string, Reminder>, after: map<string, Reminder>,
                       due: seq<(Option<string>, Reminder)>, newIds: seq<string>)
    requires |due| > 0 && |newIds| == |due|
    requires FreshIds(before, newIds) && ListedFrom(before, due)
    requires before.Keys <= after.Keys <= before.Keys + {newIds[0]}
    ensures FreshIds(after, newIds[1..]) && ListedFrom(after, due[1..])
  {
    forall i | 0 <= i < |newIds[1..]|
      ensures newIds[1..][i] !in after
    {
      assert newIds[1..][i] == newIds[i + 1];
    }
    forall k | 0 <= k < |due[1..]| && Truthy(due[1..][k].0)
      ensures due[1..][k].0.value in after
    {
      assert due[1..][k] == due[k + 1];
    }
  }

  /** `handle_tasks_sweep`. `due` is what `list_due_reminders` returned for
      `now`; `newIds` are the ids the store hands out for follow-ups. */
  function HandleSweep(world: World, cfg: TasksConfig, headers: Headers,
                       due: seq<(Option<string>, Reminder)>, now: Instant, zones: Zones,
                       newIds: seq<string>): (r: (World, Response))
    requires |newIds| == |due| && FreshIds(world.rows, newIds) && ListedFrom(world.rows, due)
    ensures !VerifyTasksAuth(headers, cfg.token) ==> r == (world, Plain(401, "unauthorized"))
    ensures world.rows.Keys <= r.0.rows.Keys
    ensures r.1.SentCount? ==>
      && r.1.sent == CountEligible(due)
      && |r.0.outbox| == |world.outbox| + r.1.sent
      && AllMarkedSent(r.0.rows, world.rows, due, now)
    ensures VerifyTasksAuth(headers, cfg.token) ==> r.1.SentCount? || r.1 == InternalError
    ensures VerifyTasksAuth(headers, cfg.token) ==> (r.1.SentCount? <==> NoneRaise(due, cfg, zones))
    ensures r.1.SentCount? ==> r.0.outbox == world.outbox + SentMessages(due, now)
    ensures |world.outbox| <= |r.0.outbox| && r.0.outbox[..|world.outbox|] == world.outbox
    ensures VerifyTasksAuth(headers, cfg.token) ==>
      var h := Handled(due, cfg, zones);
      && r.0.outbox == world.outbox + SentMessages(h, now)
      && AllMarkedSent(r.0.rows, world.rows, h, now)
      && (forall k :: k in world.rows && !Delivers(h, k) ==> r.0.rows[k] == world.rows[k])
      && StoresFollowUps(r.0.rows, world.rows, h, newIds, now, zones)
      && r.0.armed == world.armed + ArmedBy(h, newIds, cfg, zones)
    ensures r.1 == InternalError ==>
      var h := Handled(due, cfg, zones);
      && 0 < |h| <= |due| && h == due[..|h|] && Eligible(h[|h| - 1]) && Raises(h[|h| - 1].1, cfg, zones)
      && NoneRaise(h[..|h| - 1], cfg, zones)
  {
    if !VerifyTasksAuth(headers, cfg.token) then (world, Plain(401, "unauthorized"))
    else
      var (w, sent) := SweepLoop(world, cfg, due, now, zones, newIds);
      HandledStopsAtFirstRaise(due, cfg, zones);
      (w, if sent.Some? then SentCount(sent.value) else InternalError)
  }

  /** A sweep over rows none of which is eligible sends nothing and reports zero. */
  lemma {:induction false} SweepOfHandledRowsSendsNothing(world: World, cfg: TasksConfig,
                                                          due: seq<(Option<string>, Reminder)>,
                                                          now: Instant, zones: Zones, newIds: seq<string>)
    requires |newIds| == |due| && FreshIds(world.rows, newIds) && ListedFrom(world.rows, due)
    requires forall k :: 0 <= k < |due| ==> !Eligible(due[k])
    ensures SweepLoop(world, cfg, due, now, zones, newIds) == (world, Some(0))
    decreases |due|
  {
    if |due| > 0 {
      SweepStepKeeps(world.rows, world.rows, due, newIds);
      SweepOfHandledRowsSendsNothing(world, cfg, due[1..], now, zones, newIds[1..]);
    }
  }
}
