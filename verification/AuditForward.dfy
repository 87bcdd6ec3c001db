/** Forwarding the audit log to a SIEM on a schedule: the cursor in the config Secret,
    the config API beside it, and one cycle of the scheduler. */
module AuditForward {
  import opened Common
  import opened AuditRing

  const LISTED := 1000
  const MIN_INTERVAL := 5
  const MAX_INTERVAL := 1440

  datatype Signals = Signals(vuln: bool, cert: bool, config: bool, rbac: bool, audit: bool)

  datatype Target = Target(syslogAddr: string, httpURL: string, hecURL: string, hecToken: string) {
    predicate Empty() { syslogAddr == "" && httpURL == "" && hecURL == "" }
  }

  datatype RunResult = Never | Ran(collected: nat, sent: nat, errs: seq<string>)

  /** `lastAuditTS` is the cursor; 0 stands for the empty string. */
  datatype Config = Config(enabled: bool, interval: int, signals: Signals, target: Target,
                           lastRun: int, lastResult: RunResult, lastAuditTS: int)

  const DEFAULT_CONFIG :=
    Config(false, 60, Signals(true, true, false, false, false), Target("", "", "", ""), 0, Never, 0)

  datatype Severity = Info | Warning

  datatype Event = Event(severity: Severity, ns: string, resource: string, who: string, action: string, status: int,
                         timestamp: int)

  function EventOf(e: Entry): Event {
    Event(if e.status >= 400 || e.action == "delete" then Warning else Info,
          e.ns, e.resource, if e.email == "" then e.user else e.email, e.action, e.status, e.timestamp)
  }

  // ---------------------------------------------------------------- collecting

  /** The entries of a listing after `since`, in the listing's order. */
  function Newer(listing: seq<Entry>, since: int): seq<Entry> {
    if listing == [] then []
    else
      var front, e := Newer(listing[..|listing| - 1], since), listing[|listing| - 1];
      if e.timestamp > since then front + [e] else front
  }

  function EventsOf(batch: seq<Entry>): seq<Event> {
    if batch == [] then [] else EventsOf(batch[..|batch| - 1]) + [EventOf(batch[|batch| - 1])]
  }

  /** The newest timestamp, 0 if there is none. */
  function Newest(batch: seq<Entry>): int {
    if batch == [] then 0
    else
      var n, e := Newest(batch[..|batch| - 1]), batch[|batch| - 1];
      if e.timestamp > n then e.timestamp else n
  }

  lemma {:induction false} NewerMembers(listing: seq<Entry>, since: int, e: Entry)
    ensures e in Newer(listing, since) <==> e in listing && e.timestamp > since
  {
    if listing != [] {
      var n := |listing| - 1;
      NewerMembers(listing[..n], since, e);
      assert listing == listing[..n] + [listing[n]];
    }
  }

  lemma {:induction false} NewestBounds(batch: seq<Entry>, e: Entry)
    ensures e in batch ==> e.timestamp <= Newest(batch)
    ensures Newest(batch) >= 0
  {
    if batch != [] {
      var n := |batch| - 1;
      NewestBounds(batch[..n], e);
      assert batch == batch[..n] + [batch[n]];
    }
  }

  lemma {:induction false} NewestAttained(batch: seq<Entry>)
    ensures Newest(batch) == 0 || exists i :: 0 <= i < |batch| && batch[i].timestamp == Newest(batch)
  {
    if batch != [] {
      var n := |batch| - 1;
      NewestAttained(batch[..n]);
      if Newest(batch) != batch[n].timestamp && Newest(batch) != 0 {
        var i :| 0 <= i < n && batch[..n][i].timestamp == Newest(batch);
        assert batch[i].timestamp == Newest(batch);
      }
    }
  }

  /** The entry at `k`, if it is after the cursor, comes right behind those collected before it. */
  lemma {:induction false} NewerInOrder(listing: seq<Entry>, since: int, k: nat)
    requires k < |listing| && listing[k].timestamp > since
    ensures |Newer(listing[..k], since)| < |Newer(listing, since)|
    ensures Newer(listing, since)[|Newer(listing[..k], since)|] == listing[k]
    decreases |listing|
  {
    var n := |listing| - 1;
    if k < n {
      NewerInOrder(listing[..n], since, k);
      assert listing[..n][..k] == listing[..k];
    }
  }

  /** The new cursor is the time of a collected entry and none is later, or nothing after 0 was
      collected. */
  lemma NewestOfCollected(listing: seq<Entry>, since: int)
    ensures
      var newest := Newest(Newer(listing, since));
      && newest >= 0
      && (forall e :: e in listing && e.timestamp > since ==> e.timestamp <= newest)
      && (newest == 0 || exists e :: e in listing && since < e.timestamp == newest)
  {
    var batch := Newer(listing, since);
    NewestAttained(batch);
    forall e ensures e in listing && e.timestamp > since ==> e.timestamp <= Newest(batch) {
      NewerMembers(listing, since, e);
      NewestBounds(batch, e);
    }
    if Newest(batch) != 0 {
      var i :| 0 <= i < |batch| && batch[i].timestamp == Newest(batch);
      NewerMembers(listing, since, batch[i]);
    } else {
      NewestBounds(batch, Entry(0, 0, "", "", "", "", "", "", "", 0));
    }
    if batch != [] { NewestBounds(batch, batch[0]); }
  }

  /** What a SIEM is told of an entry. */
  predicate Tells(event: Event, e: Entry) {
    && event.ns == e.ns && event.resource == e.resource && event.action == e.action
    && event.status == e.status && event.timestamp == e.timestamp
    && event.who == (if e.email != "" then e.email else e.user)
    && (event.severity == Warning <==> e.status >= 400 || e.action == "delete")
  }

  /** One event for each entry, in order. */
  lemma {:induction false} EachEntryIsTold(batch: seq<Entry>, i: nat)
    ensures |EventsOf(batch)| == |batch|
    ensures i < |batch| ==> Tells(EventsOf(batch)[i], batch[i])
  {
    if batch != [] { EachEntryIsTold(batch[..|batch| - 1], i); }
  }

  method CollectAudit(listing: seq<Entry>, since: int) returns (events: seq<Event>, newest: int)
    ensures events == EventsOf(Newer(listing, since))
    ensures newest == Newest(Newer(listing, since))
    ensures |events| == |Newer(listing, since)|
    ensures forall i :: 0 <= i < |events| ==> Tells(events[i], Newer(listing, since)[i])
  {
    events := [];
    newest := 0;
    for i := 0 to |listing|
      invariant events == EventsOf(Newer(listing[..i], since))
      invariant newest == Newest(Newer(listing[..i], since))
    {
      var e := listing[i];
      assert listing[..i + 1][..i] == listing[..i];
      if e.timestamp > since {
        assert (Newer(listing[..i], since) + [e])[..|Newer(listing[..i], since)|] == Newer(listing[..i], since);
        if e.timestamp > newest { newest := e.timestamp; }
        var severity := Info;
        if e.status >= 400 || e.action == "delete" { severity := Warning; }
        var who := e.email;
        if who == "" { who := e.user; }
        events := events + [Event(severity, e.ns, e.resource, who, e.action, e.status, e.timestamp)];
      }
    }
    assert listing[..|listing|] == listing;
    EachEntryIsTold(Newer(listing, since), 0);
    forall i | 0 <= i < |events| ensures Tells(events[i], Newer(listing, since)[i]) {
      EachEntryIsTold(Newer(listing, since), i);
    }
  }

  // ---------------------------------------------------------------- dispatching

  /** Whether each kind of endpoint refuses the batch, and how many lines syslog took: a line
      that cannot be written is skipped without an error. */
  datatype Verdict = Verdict(syslogFails: bool, httpFails: bool, hecFails: bool, lines: nat)

  /** The targets that refuse a batch.  An empty batch is never posted to HEC. */
  function Refusals(batch: nat, t: Target, v: Verdict): seq<string> {
    (if t.syslogAddr != "" && v.syslogFails then ["syslog"] else []) +
    (if t.httpURL != "" && v.httpFails then ["http"] else []) +
    (if t.hecURL != "" && batch > 0 && v.hecFails then ["hec"] else [])
  }

  /** The events sent, added up over the targets that took them. */
  function SentCount(batch: nat, t: Target, v: Verdict): nat {
    (if t.syslogAddr != "" && !v.syslogFails then Min(v.lines, batch) else 0) +
    (if t.httpURL != "" && !v.httpFails then batch else 0) +
    (if t.hecURL != "" && !v.hecFails then batch else 0)
  }

  function Targets(t: Target): nat {
    (if t.syslogAddr != "" then 1 else 0) + (if t.httpURL != "" then 1 else 0) + (if t.hecURL != "" then 1 else 0)
  }

  /** Every configured target took the batch. */
  predicate Accepted(batch: nat, t: Target, v: Verdict) {
    && (t.syslogAddr != "" ==> !v.syslogFails)
    && (t.httpURL != "" ==> !v.httpFails)
    && (t.hecURL != "" && batch > 0 ==> !v.hecFails)
  }

  method Dispatch(batch: nat, t: Target, v: Verdict) returns (sent: nat, errs: seq<string>)
    ensures sent == SentCount(batch, t, v) && errs == Refusals(batch, t, v)
    ensures errs == [] <==> Accepted(batch, t, v)
    ensures sent <= batch * Targets(t)
    ensures errs == [] && v.lines >= batch ==> sent == batch * Targets(t)
  {
    sent, errs := 0, [];
    if t.syslogAddr != "" {
      if v.syslogFails { errs := errs + ["syslog"]; } else { sent := sent + Min(v.lines, batch); }
    }
    if t.httpURL != "" {
      if v.httpFails { errs := errs + ["http"]; } else { sent := sent + batch; }
    }
    if t.hecURL != "" {
      if batch > 0 && v.hecFails { errs := errs + ["hec"]; } else { sent := sent + batch; }
    }
  }

  /** Each configured target is named in the errors or has taken the batch, but for the lines
      that syslog skipped: nothing is counted that was refused. */
  lemma SentOrRefused(batch: nat, t: Target, v: Verdict)
    ensures
      var skipped := if t.syslogAddr != "" && !v.syslogFails && v.lines < batch then batch - v.lines else 0;
      SentCount(batch, t, v) + skipped == batch * (Targets(t) - |Refusals(batch, t, v)|)
    ensures
      var errs := Refusals(batch, t, v);
      && ("syslog" in errs <==> t.syslogAddr != "" && v.syslogFails)
      && ("http" in errs <==> t.httpURL != "" && v.httpFails)
      && ("hec" in errs <==> t.hecURL != "" && batch > 0 && v.hecFails)
  {
    var errs := Refusals(batch, t, v);
    var open := Targets(t) - |errs|;
    assert 0 <= open <= 3;
    assert open == 0 || open == 1 || open == 2 || open == 3;
  }

  // ---------------------------------------------------------------- the config

  function Clamp(minutes: int): int {
    if minutes < MIN_INTERVAL then MIN_INTERVAL else if minutes > MAX_INTERVAL then MAX_INTERVAL else minutes
  }

  /** What a client's config becomes: token kept when none is given, interval clamped,
      status fields as stored. */
  function Merge(input: Config, cur: Config): Config {
    var target := if input.target.hecToken == "" then input.target.(hecToken := cur.target.hecToken) else input.target;
    input.(target := target,
           interval := Clamp(input.interval),
           lastRun := cur.lastRun, lastResult := cur.lastResult, lastAuditTS := cur.lastAuditTS)
  }

  /** What is loaded has an interval, and is otherwise what is stored. */
  lemma ReadFillsInTheInterval(secret: Option<Config>)
    ensures secret.None? ==> Read(secret) == DEFAULT_CONFIG
    ensures secret.Some? ==>
      var cfg, stored := Read(secret), secret.value;
      && cfg.interval == (if stored.interval != 0 then stored.interval else 60)
      && (cfg.enabled, cfg.signals, cfg.target) == (stored.enabled, stored.signals, stored.target)
      && (cfg.lastRun, cfg.lastResult, cfg.lastAuditTS) == (stored.lastRun, stored.lastResult, stored.lastAuditTS)
  {
  }

  function Read(secret: Option<Config>): Config {
    if secret.None? then DEFAULT_CONFIG
    else if secret.value.interval == 0 then secret.value.(interval := 60) else secret.value
  }

  function WithRun(cfg: Config, now: int, result: RunResult, cursor: int): Config {
    cfg.(lastRun := now, lastResult := result, lastAuditTS := if cursor != 0 then cursor else cfg.lastAuditTS)
  }

  /** A run records its time and result, moves the cursor if it has a new one, and changes no
      setting. */
  lemma RunKeepsSettings(cfg: Config, now: int, result: RunResult, cursor: int)
    ensures
      var r := WithRun(cfg, now, result, cursor);
      && r.lastRun == now && r.lastResult == result
      && (r.enabled, r.interval, r.signals, r.target) == (cfg.enabled, cfg.interval, cfg.signals, cfg.target)
      && (r.lastAuditTS == cursor || (cursor == 0 && r.lastAuditTS == cfg.lastAuditTS))
      && (cursor == 0 ==> r.lastAuditTS == cfg.lastAuditTS)
  {
  }

  class ForwardHandler {
    var secret: Option<Config>

    constructor (secret: Option<Config>)
      ensures this.secret == secret
    {
      this.secret := secret;
    }

    method LoadConfig(getOk: bool) returns (cfg: Config, ok: bool)
      ensures ok == (getOk && secret.Some?)
      ensures cfg == if ok then Read(secret) else DEFAULT_CONFIG
    {
      cfg, ok := DEFAULT_CONFIG, false;
      if getOk && secret.Some? {
        cfg, ok := secret.value, true;
        if cfg.interval == 0 { cfg := cfg.(interval := 60); }
      }
    }

    method PutConfig(input: Config, getOk: bool, saveOk: bool)
      modifies this
      ensures secret ==
        if saveOk then Some(Merge(input, if getOk then Read(old(secret)) else DEFAULT_CONFIG)) else old(secret)
    {
      var cfg := input;
      var cur, _ := LoadConfig(getOk);
      if cfg.target.hecToken == "" { cfg := cfg.(target := cfg.target.(hecToken := cur.target.hecToken)); }
      if cfg.interval < MIN_INTERVAL { cfg := cfg.(interval := MIN_INTERVAL); }
      if cfg.interval > MAX_INTERVAL { cfg := cfg.(interval := MAX_INTERVAL); }
      cfg := cfg.(lastRun := cur.lastRun, lastResult := cur.lastResult, lastAuditTS := cur.lastAuditTS);
      if saveOk { secret := Some(cfg); }
    }

    method RecordRun(now: int, result: RunResult, cursor: int, getOk: bool, saveOk: bool)
      modifies this
      ensures secret ==
        if getOk && old(secret).Some? && saveOk then Some(WithRun(Read(old(secret)), now, result, cursor))
          else old(secret)
    {
      var cfg, ok := LoadConfig(getOk);
      if !ok { return; }
      cfg := cfg.(lastRun := now, lastResult := result);
      if cursor != 0 { cfg := cfg.(lastAuditTS := cursor); }
      if saveOk { secret := Some(cfg); }
    }
  }

  /** A client can neither set the status fields, nor lose the token by not sending it,
      nor take the interval out of range; everything else is as it asks. */
  lemma MergeKeepsStatus(input: Config, cur: Config)
    ensures
      var m := Merge(input, cur);
      && m.lastAuditTS == cur.lastAuditTS && m.lastRun == cur.lastRun && m.lastResult == cur.lastResult
      && MIN_INTERVAL <= m.interval <= MAX_INTERVAL
      && (input.interval <= m.interval || m.interval == MAX_INTERVAL)
      && (input.interval >= m.interval || m.interval == MIN_INTERVAL)
      && (input.target.hecToken != "" ==> m.target.hecToken == input.target.hecToken)
      && (input.target.hecToken == "" ==> m.target.hecToken == cur.target.hecToken)
      && m.enabled == input.enabled && m.signals == input.signals
      && (m.target.syslogAddr, m.target.httpURL, m.target.hecURL)
        == (input.target.syslogAddr, input.target.httpURL, input.target.hecURL)
      && Merge(m, cur) == m
  {
  }
}
