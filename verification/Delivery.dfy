/** One delivery of a payload: identifiers, lease, load, attach or restore, process, release. */
module Delivery {
  import opened Prelude
  import opened Json
  import opened Messages
  import opened RouterSpec
  import Durability
  import Locks
  import Paths
  import Router
  import Text

  /** The settings of a deployment. `render` is how a value that is not a string is printed. */
  datatype App = App(
    name: string, version: string, correlationPath: string, messagePath: string,
    steps: seq<StepDef>, lockEnabled: bool, owner: string, ttl: int, render: Value -> string)

  // ----- Identifiers -----

  /** stringFromPath: empty strings and nulls do not count. */
  function StringAt(app: App, payload: Object, path: string): Option<string> {
    match Paths.GetPath(payload, path)
    case None => None
    case Some(v) =>
      if v.Null? then None
      else if v.Str? then (if v.s == "" then None else Some(v.s))
      else Some(app.render(v))
  }

  datatype Identified = Identified(messageID: string, correlationID: string, payload: Object)

  /** The identifiers that processPayload works with; `uuid` is a generated UUID. */
  function Identify(app: App, payload: Object, uuid: string): Identified {
    match StringAt(app, payload, app.correlationPath)
    case Some(c) => Identified(StringAt(app, payload, app.messagePath).Or(c), c, payload)
    case None =>
      var p := Paths.ForcePath(payload, app.correlationPath, Str(uuid));
      Identified(StringAt(app, p, app.messagePath).Or(uuid), uuid, p)
  }

  /** prepareAsyncIdentifiers, which also writes the message id into the payload. */
  function Prepare(app: App, payload: Object, uuid: string): Identified {
    var first := Identify(app, payload, uuid);
    if StringAt(app, first.payload, app.messagePath).Some? then first
    else first.(payload := Paths.ForcePath(first.payload, app.messagePath, Str(first.messageID)))
  }

  // ----- Identifiers, from the payload -----

  /** The text found at a path: a string that is not empty, or what else is there, printed; null does not count. */
  predicate TextAt(app: App, payload: Object, path: string, s: string) {
    && !Text.Blank(path)
    && var found := Paths.Walk(Obj(payload), Paths.Segments(path));
      && found.Some? && !found.value.Null?
      && if found.value.Str? then s != "" && found.value == Str(s) else s == app.render(found.value)
  }

  ghost predicate NoTextAt(app: App, payload: Object, path: string) { forall s :: !TextAt(app, payload, path, s) }

  lemma StringIsText(app: App, payload: Object, path: string)
    ensures forall s :: StringAt(app, payload, path) == Some(s) <==> TextAt(app, payload, path, s)
    ensures StringAt(app, payload, path) == None <==> NoTextAt(app, payload, path)
  {
    var found := StringAt(app, payload, path);
    if found.Some? { assert TextAt(app, payload, path, found.value); }
  }

  /** The identifiers that a payload determines. The correlation id is the text found at its path and otherwise the
      generated one, which is then written there; the message id is the text found at the message path after that,
      and otherwise the correlation id. */
  ghost predicate Identifies(app: App, payload: Object, uuid: string, ids: Identified) {
    && (forall s | TextAt(app, payload, app.correlationPath, s) :: ids.correlationID == s && ids.payload == payload)
    && (NoTextAt(app, payload, app.correlationPath) ==>
          ids.correlationID == uuid && ids.payload == Paths.ForcePath(payload, app.correlationPath, Str(uuid)))
    && (forall s | TextAt(app, ids.payload, app.messagePath, s) :: ids.messageID == s)
    && (NoTextAt(app, ids.payload, app.messagePath) ==> ids.messageID == ids.correlationID)
  }

  /** Every payload determines its identifiers. */
  lemma IdentifiedByPayload(app: App, payload: Object, uuid: string, ids: Identified)
    ensures Identifies(app, payload, uuid, ids) <==> ids == Identify(app, payload, uuid)
  {
    StringIsText(app, payload, app.correlationPath);
    StringIsText(app, ids.payload, app.messagePath);
    StringIsText(app, Identify(app, payload, uuid).payload, app.messagePath);
    var c := StringAt(app, payload, app.correlationPath);
    if c.Some? { assert TextAt(app, payload, app.correlationPath, c.value); }
    var m := StringAt(app, Identify(app, payload, uuid).payload, app.messagePath);
    if m.Some? { assert TextAt(app, Identify(app, payload, uuid).payload, app.messagePath, m.value); }
  }

  /** In particular a payload that has both texts is identified by them; and a generated correlation id is found
      where it was written, while a message id on another path is found as before. */
  lemma IdentifiersAreFound(app: App, payload: Object, uuid: string, ids: Identified, m: string)
    requires Identifies(app, payload, uuid, ids) && uuid != ""
    requires Trimmed(app.correlationPath) && Trimmed(app.messagePath)
    ensures TextAt(app, ids.payload, app.correlationPath, ids.correlationID)
    ensures TextAt(app, payload, app.messagePath, m)
            && (!NoTextAt(app, payload, app.correlationPath)
                || Paths.Disjoint(Paths.Segments(app.correlationPath), Paths.Segments(app.messagePath)))
            ==> ids.messageID == m
  {
    StringIsText(app, payload, app.correlationPath);
    StringIsText(app, ids.payload, app.correlationPath);
    StringIsText(app, payload, app.messagePath);
    StringIsText(app, ids.payload, app.messagePath);
    IdentifiedByPayload(app, payload, uuid, ids);
    IdentifiedCorrelation(app, payload, uuid);
    if Paths.Disjoint(Paths.Segments(app.correlationPath), Paths.Segments(app.messagePath)) {
      ReadsAround(app, payload, app.correlationPath, uuid, app.messagePath);
    }
  }

  predicate Trimmed(path: string) { path != "" && Text.TrimSpace(path) == path }

  lemma ReadsBack(app: App, payload: Object, path: string, s: string)
    requires Trimmed(path) && s != ""
    ensures StringAt(app, Paths.ForcePath(payload, path, Str(s)), path) == Some(s)
  {
    Paths.ForceReadBack(payload, Paths.Segments(path), Str(s));
  }

  lemma ReadsAround(app: App, payload: Object, path: string, s: string, other: string)
    requires Trimmed(path) && Trimmed(other)
    requires Paths.Disjoint(Paths.Segments(path), Paths.Segments(other))
    ensures StringAt(app, Paths.ForcePath(payload, path, Str(s)), other) == StringAt(app, payload, other)
  {
    Paths.ForceFrame(payload, Paths.Segments(path), Str(s), Paths.Segments(other));
  }

  /** A walk that goes on past a scalar finds nothing. */
  lemma {:induction false} NothingPastScalar(v: Value, p: seq<string>, q: seq<string>)
    requires p < q && Paths.Walk(v, p).Some? && !Paths.Walk(v, p).value.Obj?
    ensures Paths.Walk(v, q) == None
    decreases |p|
  {
    if p != [] {
      assert p[1..] < q[1..];
      NothingPastScalar(v.fields[p[0]], p[1..], q[1..]);
    }
  }

  /** An overwriting write makes every proper prefix of its path an object. */
  lemma {:induction false} ForceMakesObjects(o: Object, p: seq<string>, q: Paths.Parts, value: Value)
    requires p < q
    ensures var at := Paths.Walk(Obj(Paths.ForceParts(o, q, value)), p); at.Some? && at.value.Obj?
    decreases |p|
  {
    if p != [] {
      assert p[0] == q[0] && p[1..] < q[1..];
      ForceMakesObjects(Paths.Child(o, q[0]), p[1..], q[1..], value);
    }
  }

  /** An object on the way to a path that is found. */
  lemma {:induction false} ObjectsOnTheWay(v: Value, p: seq<string>, q: seq<string>)
    requires p < q && Paths.Walk(v, q).Some?
    ensures Paths.Walk(v, p).Some? && Paths.Walk(v, p).value.Obj?
    decreases |p|
  {
    if p != [] {
      assert p[1..] < q[1..];
      ObjectsOnTheWay(v.fields[p[0]], p[1..], q[1..]);
    }
  }

  /** The message id has to be written, and its path runs through the correlation id. */
  predicate Overwritten(app: App, payload: Object) {
    && Paths.Segments(app.correlationPath) < Paths.Segments(app.messagePath)
    && StringAt(app, payload, app.messagePath) == None
  }

  /** After identification the correlation id is found, and nothing below it if it was written. */
  lemma IdentifiedCorrelation(app: App, payload: Object, uuid: string)
    requires Trimmed(app.correlationPath) && uuid != ""
    ensures var first := Identify(app, payload, uuid);
            StringAt(app, first.payload, app.correlationPath) == Some(first.correlationID)
  {
    if StringAt(app, payload, app.correlationPath).None? {
      ReadsBack(app, payload, app.correlationPath, uuid);
    }
  }

  /** Identification does not change whether the message id has to be written through the correlation id. */
  lemma OverwrittenAfterIdentify(app: App, payload: Object, uuid: string)
    requires Trimmed(app.correlationPath) && Trimmed(app.messagePath) && uuid != ""
    ensures Overwritten(app, payload) <==> Overwritten(app, Identify(app, payload, uuid).payload)
  {
    var c, m := Paths.Segments(app.correlationPath), Paths.Segments(app.messagePath);
    if c < m && StringAt(app, payload, app.correlationPath).None? {
      Paths.ForceReadBack(payload, c, Str(uuid));
      NothingPastScalar(Obj(Paths.ForcePath(payload, app.correlationPath, Str(uuid))), c, m);
      if Paths.Walk(Obj(payload), m).Some? { ObjectsOnTheWay(Obj(payload), c, m); }
    }
  }

  lemma SamePath(app: App)
    requires Paths.Segments(app.correlationPath) == Paths.Segments(app.messagePath)
    ensures app.correlationPath == app.messagePath
  {
    Text.JoinSplit(app.correlationPath, '.');
    Text.JoinSplit(app.messagePath, '.');
  }

  /** A message path above the correlation id holds an object by then, so it is never written. */
  lemma AboveIsFound(app: App, payload: Object, uuid: string)
    requires Trimmed(app.correlationPath) && Trimmed(app.messagePath) && uuid != ""
    requires Paths.Segments(app.messagePath) < Paths.Segments(app.correlationPath)
    ensures StringAt(app, Identify(app, payload, uuid).payload, app.messagePath).Some?
  {
    IdentifiedCorrelation(app, payload, uuid);
    var first := Identify(app, payload, uuid).payload;
    ObjectsOnTheWay(Obj(first), Paths.Segments(app.messagePath), Paths.Segments(app.correlationPath));
  }

  /** The identifiers that the asynchronous REST trigger answers are the ones that the later processing
      of the same payload finds, whatever UUID it would generate, exactly when the message id is not
      written through the correlation id, or the object that it leaves there happens to print as the
      answered id. */
  lemma AsyncIdentifiersAgree(app: App, payload: Object, uuid: string, later: string)
    requires Trimmed(app.correlationPath) && Trimmed(app.messagePath)
    requires uuid != "" && (forall v :: app.render(v) != "")
    ensures var sent := Prepare(app, payload, uuid);
            Identify(app, sent.payload, later) == sent
            <==> !Overwritten(app, payload)
                 || StringAt(app, sent.payload, app.correlationPath) == Some(sent.correlationID)
  {
    var first := Identify(app, payload, uuid);
    IdentifiedCorrelation(app, payload, uuid);
    OverwrittenAfterIdentify(app, payload, uuid);
    if StringAt(app, first.payload, app.messagePath).None? {
      WrittenAgrees(app, payload, uuid, later);
    }
  }

  lemma WrittenAgrees(app: App, payload: Object, uuid: string, later: string)
    requires Trimmed(app.correlationPath) && Trimmed(app.messagePath)
    requires uuid != "" && (forall v :: app.render(v) != "")
    requires StringAt(app, Identify(app, payload, uuid).payload, app.messagePath).None?
    ensures var sent := Prepare(app, payload, uuid);
            && (!Overwritten(app, payload) ==> Identify(app, sent.payload, later) == sent)
            && (Overwritten(app, payload) ==>
                  (Identify(app, sent.payload, later) == sent
                   <==> StringAt(app, sent.payload, app.correlationPath) == Some(sent.correlationID)))
  {
    var c, m := Paths.Segments(app.correlationPath), Paths.Segments(app.messagePath);
    var first := Identify(app, payload, uuid);
    IdentifiedCorrelation(app, payload, uuid);
    OverwrittenAfterIdentify(app, payload, uuid);
    ReadsBack(app, first.payload, app.messagePath, first.messageID);
    if c == m {
      SamePath(app);
    } else if m < c {
      AboveIsFound(app, payload, uuid);
    } else if c < m {
      ForceMakesObjects(first.payload, c, m, Str(first.messageID));
    } else {
      NeitherIsPrefix(c, m);
      ReadsAround(app, first.payload, app.messagePath, first.messageID, app.correlationPath);
    }
  }

  lemma NeitherIsPrefix(p: seq<string>, q: seq<string>)
    requires p != q && !(p < q) && !(q < p)
    ensures Paths.Disjoint(p, q) && Paths.Disjoint(q, p)
  {}

  /** So with printed objects that differ from every id, they agree exactly when the message id is not
      missing below the correlation id. */
  lemma AgreeUnlessOverwritten(app: App, payload: Object, uuid: string, later: string)
    requires Trimmed(app.correlationPath) && Trimmed(app.messagePath)
    requires uuid != "" && (forall v :: app.render(v) != "")
    requires forall o :: app.render(Obj(o)) != Identify(app, payload, uuid).correlationID
    ensures Identify(app, Prepare(app, payload, uuid).payload, later) == Prepare(app, payload, uuid)
            <==> !Overwritten(app, payload)
  {
    AsyncIdentifiersAgree(app, payload, uuid, later);
    if Overwritten(app, payload) {
      OverwrittenAfterIdentify(app, payload, uuid);
      var first := Identify(app, payload, uuid);
      ForceMakesObjects(first.payload, Paths.Segments(app.correlationPath), Paths.Segments(app.messagePath),
                        Str(first.messageID));
    }
  }

  // ----- The message of a delivery -----

  datatype Request = Request(headers: Headers, trace: Option<string>, now: int, loads: bool)

  function Headed(app: App, m: Msg, req: Request): Msg {
    var h := (m.headers + req.headers)["workflow" := app.name];
    m.(headers := if app.version != "" then h["workflow_version" := app.version] else h)
  }

  function Attached(app: App, m: Msg): Msg {
    if m.Remaining() == 0 && m.cursor == 0 then m.(slip := m.slip + app.steps) else m
  }

  function Correlated(m: Msg, correlationID: string): Msg {
    if m.correlationID == "" then
      m.(correlationID := correlationID, headers := m.headers["correlation_id" := correlationID])
    else m.(headers := m.headers["correlation_id" := m.correlationID])
  }

  /** The message before Process: restored or new, with its headers, slip and correlation id. */
  function Prepared(app: App, req: Request, ids: Identified, stored: Option<Snapshot>): Msg {
    var m := if stored.Some? then Restore(stored.value) else NewMsg(ids.messageID, req.now, ids.payload);
    Correlated(Attached(app, Headed(app, m, req)), ids.correlationID)
  }

  /** What a delivery starts with. A stored snapshot gives the payload, the place in the slip and the trail; otherwise
      the message is new and gets the slip of the workflow. The correlation id is the stored one, if there is one. */
  lemma PreparedReads(app: App, req: Request, ids: Identified, stored: Option<Snapshot>)
    ensures var m := Prepared(app, req, ids, stored);
            && (stored.None? ==>
                  && m.id == ids.messageID && m.payload == ids.payload && m.slip == app.steps && m.cursor == 0
                  && m.status == Created && m.history == [] && m.errors == [] && m.states == map[]
                  && m.createdAt == req.now && m.attempt == 0 && m.traceID == ""
                  && m.correlationID == ids.correlationID)
            && (stored.Some? ==>
                  var s := stored.value;
                  && m.id == s.id && m.payload == s.payload && m.history == s.history && m.states == s.states
                  && m.createdAt == s.createdAt && m.attempt == s.attempt && m.traceID == s.traceID
                  && |m.errors| == |s.errors|
                  && (forall k | 0 <= k < |s.errors| ::
                        m.errors[k] == StepError(s.errors[k].step, Some(Plain(s.errors[k].text))))
                  && m.status == (if s.status == Blank then Loaded else s.status)
                  && (s.slip != [] ==> m.slip == s.slip) && (s.slip == [] ==> m.slip == app.steps)
                  && (0 <= s.cursor <= |s.slip| ==> m.cursor == s.cursor)
                  && m.correlationID == (if s.correlationID == "" then ids.correlationID else s.correlationID))
  {
    assert [] + app.steps == app.steps;
  }

  /** The headers of the request come over the stored ones, and the labels over both. */
  lemma PreparedHeaders(app: App, req: Request, ids: Identified, stored: Option<Snapshot>)
    ensures var m := Prepared(app, req, ids, stored);
            && m.Header("workflow") == app.name && m.Header("correlation_id") == m.correlationID
            && (app.version != "" ==> m.Header("workflow_version") == app.version)
            && forall k | k !in {"workflow", "workflow_version", "correlation_id"} ::
                 m.Header(k) == if k in req.headers then req.headers[k]
                                else if stored.Some? && k in stored.value.headers then stored.value.headers[k] else ""
  {}

  predicate AlreadyComplete(m: Msg) { m.status == Completed && m.Remaining() == 0 }

  function Traced(m: Msg, req: Request): Msg { m.(traceID := req.trace.Or(m.traceID)) }

  datatype Outcome =
    | Locked
    | LockError
    | LoadError
    | Done(m: Msg, err: Option<Fault>)

  /** What a delivery that holds the lease appends to the log of its message id, and its outcome. */
  function Deliver(app: App, r: Config, w: World, req: Request, ids: Identified, log: seq<Event>, t: nat := 0)
    : (res: (Run, Outcome))
  {
    if !req.loads then (Run(NewMsg(ids.messageID, req.now, ids.payload), log, t), LoadError)
    else
      var m := Prepared(app, req, ids, Stored(log));
      if AlreadyComplete(m) then (Run(m, log, t), Done(m, None))
      else
        PreparedIsValid(app, req, ids, Stored(log));
        var (c, err) := Process(r, w, Run(Traced(m, req), log, t));
        (c, Done(c.m, err))
  }

  lemma PreparedIsValid(app: App, req: Request, ids: Identified, stored: Option<Snapshot>)
    ensures Prepared(app, req, ids, stored).Valid()
  {}

  /** A delivery fails if the load does, returns a completed message as it is, and otherwise processes it, with the
      trace of the request if there is one. */
  lemma DeliversPrepared(app: App, r: Config, w: World, req: Request, ids: Identified, log: seq<Event>, t: nat)
    ensures var (c, out) := Deliver(app, r, w, req, ids, log, t);
            var m := Prepared(app, req, ids, Stored(log));
            && (!req.loads ==> out == LoadError && c.log == log)
            && (req.loads && m.status == Completed && m.cursor == |m.slip| ==> out == Done(m, None) && c.log == log)
            && (req.loads && !(m.status == Completed && m.cursor == |m.slip|) ==>
                  && m.Valid()
                  && var trace := if req.trace.Some? then req.trace.value else m.traceID;
                     var (c', err) := Process(r, w, Run(m.(traceID := trace), log, t));
                     c == c' && out == Done(c'.m, err))
  {
    PreparedIsValid(app, req, ids, Stored(log));
  }

  /** What a delivery saves is of the message whose snapshot it has found, or of the new one. */
  lemma DeliversOwn(app: App, r: Config, w: World, req: Request, ids: Identified, log: seq<Event>, t: nat)
    requires Stored(log).Some? ==> Stored(log).value.id == ids.messageID
    ensures var (c, out) := Deliver(app, r, w, req, ids, log, t);
            SavesFor(ids.messageID, log, c.log) && (out.Done? ==> out.m.id == ids.messageID)
  {
    PreparedIsValid(app, req, ids, Stored(log));
  }

  // ----- The runtime object -----

  class AppRuntime {
    const app: App
    const router: Router.Router
    const env: Router.Environment
    const locks: Locks.MemoryLocks

    constructor (app: App, router: Router.Router, env: Router.Environment, locks: Locks.MemoryLocks)
      ensures this.app == app && this.router == router && this.env == env && this.locks == locks
    {
      this.app, this.router, this.env, this.locks := app, router, env, locks;
    }

    /** Restore or create the message, label it, attach the slip, set its correlation id. */
    method PrepareMessage(req: Request, ids: Identified, stored: Option<Snapshot>) returns (msg: Message)
      ensures fresh(msg) && msg.Value() == Prepared(app, req, ids, stored)
      ensures msg.id == if stored.Some? then stored.value.id else ids.messageID
    {
      if stored.Some? {
        msg := new Message.FromSnapshot(stored.value);
      } else {
        msg := new Message(ids.messageID, req.now, ids.payload);
      }
      msg.headers := (msg.headers + req.headers)["workflow" := app.name];
      if app.version != "" {
        msg.headers := msg.headers["workflow_version" := app.version];
      }
      if |msg.slip| - msg.cursor == 0 && msg.cursor == 0 {
        msg.AttachSlip(app.steps);
      }
      if msg.correlationID == "" {
        msg.correlationID := ids.correlationID;
        msg.headers := msg.headers["correlation_id" := ids.correlationID];
      } else {
        msg.headers := msg.headers["correlation_id" := msg.correlationID];
      }
    }

    /** The prepared message with the trace of the request, through the router. */
    method ProcessTraced(req: Request, msg: Message) returns (err: Option<Fault>)
      requires env.Mirrors(msg.id) && msg.Value().Valid()
      modifies env, msg
      ensures env.Mirrors(msg.id) && env.Others(msg.id) == old(env.Others(msg.id))
      ensures var m, log := old(msg.Value()), old(env.LogOf(msg.id));
              var (c, e) := Process(router.Cfg(), env.world, Run(Traced(m, req), log, old(env.tick)));
              err == e && msg.Value() == c.m && env.LogOf(msg.id) == c.log
    {
      if req.trace.Some? {
        msg.traceID := req.trace.value;
      }
      err := router.Process(env, msg);
    }

    /** processPayload once the lease is held. */
    method ProcessLeased(req: Request, ids: Identified) returns (out: Outcome)
      requires env.Mirrors(ids.messageID)
      modifies env
      ensures env.Mirrors(ids.messageID) && env.Others(ids.messageID) == old(env.Others(ids.messageID))
      ensures var log := old(env.LogOf(ids.messageID));
              var (c, o) := Deliver(app, router.Cfg(), env.world, req, ids, log, old(env.tick));
              out == o && env.LogOf(ids.messageID) == c.log
    {
      if !req.loads {
        return LoadError;
      }
      var stored := if ids.messageID in env.snapshots then Some(env.snapshots[ids.messageID]) else None;
      var msg := PrepareMessage(req, ids, stored);
      if msg.status == Completed && |msg.slip| - msg.cursor == 0 {
        return Done(msg.Value(), None);
      }
      var err := ProcessTraced(req, msg);
      out := Done(msg.Value(), err);
    }

    /** processPayload: identify, acquire, process, release. The lease, the snapshot that is looked up and every
        snapshot that is saved are of the message that the payload identifies. A delivery that does not get the lease
        changes nothing; one that does gives it back, whatever happened in between. */
    method ProcessPayload(payload: Object, req: Request, uuid: string, cancelled: bool, now: nat) returns (out: Outcome)
      requires env.MirrorsAll()
      modifies env, locks
      ensures env.MirrorsAll()
      ensures forall ids | Identifies(app, payload, uuid, ids) ::
                var key := Text.TrimSpace(ids.messageID);
                && env.Others(ids.messageID) == old(env.Others(ids.messageID))
                && (out.LockError? <==> app.lockEnabled && (cancelled || key == ""))
                && (out.Locked? <==> app.lockEnabled && !cancelled && key != ""
                                     && !Locks.Free(old(locks.locks), key, now))
                && (out.LockError? || out.Locked? || !app.lockEnabled ==> locks.locks == old(locks.locks))
                && (out.LockError? || out.Locked? ==> env.logs == old(env.logs) && env.snapshots == old(env.snapshots))
                && (!out.LockError? && !out.Locked? ==>
                      && (app.lockEnabled ==> locks.locks == old(locks.locks) - {key})
                      && Delivered(ids, req, old(env.LogOf(ids.messageID)), old(env.tick), out))
    {
      var ids := Identify(app, payload, uuid);
      forall other | Identifies(app, payload, uuid, other) ensures other == ids {
        IdentifiedByPayload(app, payload, uuid, other);
      }
      out := ProcessIdentified(ids, req, cancelled, now);
    }

    /** The delivery as specified, on the log of the message: it starts from the snapshot stored for it, and saves
        snapshots of it only. */
    ghost predicate Delivered(ids: Identified, req: Request, log: seq<Event>, t: nat, out: Outcome)
      reads env
    {
      var (c, o) := Deliver(app, router.Cfg(), env.world, req, ids, log, t);
      && out == o && env.LogOf(ids.messageID) == c.log
      && SavesFor(ids.messageID, log, c.log) && (out.Done? ==> out.m.id == ids.messageID)
    }

    method ProcessIdentified(ids: Identified, req: Request, cancelled: bool, now: nat) returns (out: Outcome)
      requires env.MirrorsAll()
      modifies env, locks
      ensures env.MirrorsAll() && env.Others(ids.messageID) == old(env.Others(ids.messageID))
      ensures var key := Text.TrimSpace(ids.messageID);
              && (out.LockError? <==> app.lockEnabled && (cancelled || key == ""))
              && (out.Locked? <==> app.lockEnabled && !cancelled && key != ""
                                   && !Locks.Free(old(locks.locks), key, now))
              && (out.LockError? || out.Locked? || !app.lockEnabled ==> locks.locks == old(locks.locks))
              && (out.LockError? || out.Locked? ==> env.logs == old(env.logs) && env.snapshots == old(env.snapshots))
              && (!out.LockError? && !out.Locked? ==>
                    && (app.lockEnabled ==> locks.locks == old(locks.locks) - {key})
                    && Delivered(ids, req, old(env.LogOf(ids.messageID)), old(env.tick), out))
    {
      if !app.lockEnabled {
        out := DeliverOne(req, ids);
        return;
      }
      var acquired := locks.TryAcquireProcessing(cancelled, ids.messageID, app.owner, app.ttl, now);
      match acquired {
        case Busy =>
          return Locked;
        case ContextDone =>
          return LockError;
        case MissingID =>
          return LockError;
        case Leased(lease) =>
          out := DeliverOne(req, ids);
          var _ := locks.Release(false, lease);
      }
    }

    /** A delivery among all the messages of the store. */
    method DeliverOne(req: Request, ids: Identified) returns (out: Outcome)
      requires env.MirrorsAll()
      modifies env
      ensures env.MirrorsAll() && env.Others(ids.messageID) == old(env.Others(ids.messageID))
      ensures Delivered(ids, req, old(env.LogOf(ids.messageID)), old(env.tick), out)
    {
      ghost var log, t := env.LogOf(ids.messageID), env.tick;
      assert env.Mirrors(ids.messageID);
      DeliversOwn(app, router.Cfg(), env.world, req, ids, log, t);
      out := ProcessLeased(req, ids);
      env.StillMirrors(ids.messageID);
    }

    /** prepareAsyncIdentifiers. */
    method PrepareAsyncIdentifiers(payload: Object, uuid: string) returns (ids: Identified)
      ensures ids == Prepare(app, payload, uuid)
      ensures forall first | Identifies(app, payload, uuid, first) ::
                && ids.messageID == first.messageID && ids.correlationID == first.correlationID
                && ids.payload == if NoTextAt(app, first.payload, app.messagePath) then
                                    Paths.ForcePath(first.payload, app.messagePath, Str(first.messageID))
                                  else first.payload
    {
      forall first | Identifies(app, payload, uuid, first) ensures first == Identify(app, payload, uuid) {
        IdentifiedByPayload(app, payload, uuid, first);
      }
      StringIsText(app, Identify(app, payload, uuid).payload, app.messagePath);
      var p := payload;
      var correlation := StringAt(app, p, app.correlationPath);
      if correlation.None? {
        correlation := Some(uuid);
        p := Paths.ForcePath(p, app.correlationPath, Str(uuid));
      }
      var message := StringAt(app, p, app.messagePath);
      if message.None? {
        message := correlation;
        p := Paths.ForcePath(p, app.messagePath, Str(correlation.value));
      }
      ids := Identified(message.value, correlation.value, p);
    }
  }
}
