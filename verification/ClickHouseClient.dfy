/** The ClickHouse client as a state machine (packages/semantic-search/semantic_search/analytics/clickhouse_client.py):
    retries, health records, and the lag probe after every so many successes.  What the transport does on its n-th call
    is given by an arbitrary function; calls run one after the other. */
module ClickHouseClient {
  import opened Common
  import Text

  /** A cell of a returned row: null, convertible to a number, or not. */
  datatype Cell = Null | Num(value: real) | NotNumeric

  type Row = seq<(string, Cell)>

  datatype Outcome = Rows(rows: seq<Row>) | TimedOut | QueryError | TransportError

  datatype QueryResult =
    | Success(rows: seq<Row>)
    | Rejected        // empty SQL or a non-positive timeout
    | Unavailable
    | TimeoutFailure
    | QueryFailure
    | TransportFailure
    | RetriesExhausted  // the raise after the retry loop

  datatype ClientConfig = ClientConfig(
    maxRetries: int, probeEnabled: bool, probeInterval: int, lagSql: string, maxLag: real, probeTimeout: real)

  /** What the client carries from call to call; `probes` counts lag queries issued. */
  datatype State = State(available: bool, streak: nat, sent: nat, health: seq<bool>, probes: nat)

  function Attempts(cfg: ClientConfig): (n: int)
    ensures n >= 1
  {
    if cfg.maxRetries + 1 > 1 then cfg.maxRetries + 1 else 1
  }

  function FirstNumber(row: Row): Option<real> {
    if row == [] then None
    else if row[0].1.Num? then Some(row[0].1.value)
    else FirstNumber(row[1..])
  }

  function CellNamed(row: Row, name: string): Option<Cell> {
    if row == [] then None else if row[0].0 == name then Some(row[0].1) else CellNamed(row[1..], name)
  }

  /** The lag in the first row: the `lag_seconds` cell unless it is missing or null, else the first numeric cell. */
  function ProbeLag(rows: seq<Row>): Option<real> {
    if rows == [] then None
    else
      match CellNamed(rows[0], "lag_seconds")
      case Some(Num(v)) => Some(v)
      case Some(NotNumeric) => None
      case _ => FirstNumber(rows[0])
  }

  /** The retry loop from `attempt` on: the result and the number of transport calls made by then. */
  function RetryLoop(transport: nat -> Outcome, attempts: int, attempt: int, sent: nat): (QueryResult, nat)
    decreases attempts - attempt + 1
  {
    if attempt > attempts then (RetriesExhausted, sent)
    else
      match transport(sent)
      case Rows(rows) => (Success(rows), sent + 1)
      case QueryError => (QueryFailure, sent + 1)
      case TimedOut =>
        if attempt >= attempts then (TimeoutFailure, sent + 1)
        else RetryLoop(transport, attempts, attempt + 1, sent + 1)
      case TransportError =>
        if attempt >= attempts then (TransportFailure, sent + 1)
        else RetryLoop(transport, attempts, attempt + 1, sent + 1)
  }

  predicate Acceptable(query: string, timeout: real) {
    Text.Strip(query) != "" && timeout > 0.0
  }

  function Record(st: State, ok: bool): State {
    st.(health := st.health + [ok])
  }

  function Execute(cfg: ClientConfig, transport: nat -> Outcome, st: State, query: string, timeout: real,
                   skipProbe: bool): (QueryResult, State)
    decreases if skipProbe then 0 else 2
  {
    if !Acceptable(query, timeout) then (Rejected, st)
    else if !st.available then (Unavailable, Record(st, false))
    else
      var (r, sent) := RetryLoop(transport, Attempts(cfg), 1, st.sent);
      var after := Record(st.(sent := sent), r.Success?);
      (r, if r.Success? && !skipProbe then MaybeProbe(cfg, transport, after) else after)
  }

  function MaybeProbe(cfg: ClientConfig, transport: nat -> Outcome, st: State): State
    decreases 1
  {
    if !cfg.probeEnabled || cfg.probeInterval < 1 then st
    else
      var counted := st.(streak := st.streak + 1);
      if counted.streak % cfg.probeInterval != 0 then counted
      else
        var probing := counted.(probes := counted.probes + 1);
        var (r, after) := Execute(cfg, transport, probing, cfg.lagSql, cfg.probeTimeout, true);
        if !r.Success? then Record(after, false)
        else
          match ProbeLag(r.rows)
          case None => Record(after, false)
          case Some(lag) => if lag > cfg.maxLag then Record(after, false) else after
  }

  class ClickHouseClient {
    const cfg: ClientConfig
    const transport: nat -> Outcome
    var available: bool
    var streak: nat
    var health: seq<bool>
    var sent: nat
    ghost var probes: nat

    constructor (cfg: ClientConfig, transport: nat -> Outcome, available: bool)
      ensures this.cfg == cfg && this.transport == transport && St() == State(available, 0, 0, [], 0)
    {
      this.cfg := cfg;
      this.transport := transport;
      this.available := available;
      streak, sent, health, probes := 0, 0, [], 0;
    }

    ghost function St(): State
      reads this
    {
      State(available, streak, sent, health, probes)
    }

    method RecordHealth(success: bool)
      modifies this`health
      ensures St() == Record(old(St()), success)
    {
      health := health + [success];
    }

    method ExecuteQuery(query: string, timeout: real, skipProbe: bool) returns (r: QueryResult)
      modifies this
      ensures (r, St()) == Execute(cfg, transport, old(St()), query, timeout, skipProbe)
      decreases if skipProbe then 0 else 2
    {
      if Text.Strip(query) == "" { return Rejected; }
      if timeout <= 0.0 { return Rejected; }
      if !available {
        RecordHealth(false);
        return Unavailable;
      }
      var attempts := Attempts(cfg);
      var attempt := 1;
      while attempt <= attempts
        invariant attempt <= attempts + 1
        invariant RetryLoop(transport, attempts, attempt, sent) == RetryLoop(transport, attempts, 1, old(sent))
        invariant St() == old(St()).(sent := sent)
      {
        var outcome := transport(sent);
        sent := sent + 1;
        match outcome {
          case Rows(rows) =>
            RecordHealth(true);
            if !skipProbe { MaybeRunMvFreshnessProbe(); }
            return Success(rows);
          case TimedOut =>
            if attempt >= attempts {
              RecordHealth(false);
              return TimeoutFailure;
            }
          case QueryError =>
            RecordHealth(false);
            return QueryFailure;
          case TransportError =>
            if attempt >= attempts {
              RecordHealth(false);
              return TransportFailure;
            }
        }
        attempt := attempt + 1;
      }
      RecordHealth(false);
      return RetriesExhausted;
    }

    method MaybeRunMvFreshnessProbe()
      modifies this
      ensures St() == MaybeProbe(cfg, transport, old(St()))
      decreases 1
    {
      if !cfg.probeEnabled { return; }
      if cfg.probeInterval < 1 { return; }
      streak := streak + 1;
      if streak % cfg.probeInterval != 0 { return; }
      probes := probes + 1;
      var r := ExecuteQuery(cfg.lagSql, cfg.probeTimeout, true);
      if !r.Success? {
        RecordHealth(false);
        return;
      }
      var lag := ProbeLag(r.rows);
      if lag.None? {
        RecordHealth(false);
        return;
      }
      if lag.value > cfg.maxLag { RecordHealth(false); }
    }
  }

  // ---- One query

  predicate Retriable(o: Outcome) {
    o.TimedOut? || o.TransportError?
  }

  /** The verdict an attempt's outcome leads to when it is the last one. */
  function Verdict(o: Outcome): QueryResult {
    match o
    case Rows(rows) => Success(rows)
    case QueryError => QueryFailure
    case TimedOut => TimeoutFailure
    case TransportError => TransportFailure
  }

  /** The loop makes at least one attempt and no more than allowed; every attempt but the last met a retriable
      failure; the last one decides the result, and is retriable only when no attempt was left.  The raise after the
      loop is never reached. */
  lemma {:induction false} RetryLoopExact(transport: nat -> Outcome, attempts: int, attempt: int, sent: nat)
    requires attempt <= attempts
    ensures var (r, end) := RetryLoop(transport, attempts, attempt, sent);
            && sent < end <= sent + (attempts - attempt + 1)
            && (forall i: nat | sent <= i < end - 1 :: Retriable(transport(i)))
            && r == Verdict(transport(end - 1))
            && (Retriable(transport(end - 1)) ==> end == sent + (attempts - attempt + 1))
    decreases attempts - attempt
  {
    if Retriable(transport(sent)) && attempt < attempts {
      RetryLoopExact(transport, attempts, attempt + 1, sent + 1);
    }
  }

  /** Own transport calls and own health record of one query, the probe left aside.  A query is allowed its first
      attempt and `maxRetries` more, if that is not negative. */
  lemma QueryAttempts(cfg: ClientConfig, transport: nat -> Outcome, st: State, query: string, timeout: real)
    ensures var (r, after) := Execute(cfg, transport, st, query, timeout, true);
            var allowed := if cfg.maxRetries < 0 then 1 else 1 + cfg.maxRetries;
            && r != RetriesExhausted
            && after.streak == st.streak && after.probes == st.probes && after.available == st.available
            && (r.Rejected? <==> Text.AllSpace(query) || timeout <= 0.0)
            && (r.Rejected? ==> after == st)
            && (r.Unavailable? <==> !r.Rejected? && !st.available)
            && (r.Unavailable? ==> after.sent == st.sent)
            && (!r.Rejected? ==> after.health == st.health + [r.Success?])
            && (!r.Rejected? && !r.Unavailable? ==>
                  && st.sent < after.sent <= st.sent + allowed
                  && r == Verdict(transport(after.sent - 1))
                  && (forall i: nat | st.sent <= i < after.sent - 1 :: Retriable(transport(i)))
                  && (Retriable(transport(after.sent - 1)) ==> after.sent == st.sent + allowed))
  {
    Text.StripsToNothing(query);
    if Acceptable(query, timeout) && st.available {
      RetryLoopExact(transport, Attempts(cfg), 1, st.sent);
    }
  }

  /** Every retry allowed is made: a query that meets only retriable failures makes one attempt and `maxRetries` more,
      and one that meets an answer, rows or a query error, after no more than `maxRetries` of them returns that answer.
      */
  lemma RetriesAreUsed(cfg: ClientConfig, transport: nat -> Outcome, st: State, query: string, timeout: real,
                       failures: nat)
    requires !Text.AllSpace(query) && timeout > 0.0 && st.available
    requires forall i: nat | st.sent <= i < st.sent + failures :: Retriable(transport(i))
    ensures var (r, after) := Execute(cfg, transport, st, query, timeout, true);
            && (failures > cfg.maxRetries && failures > 0 ==>
                  !r.Success? && after.sent == st.sent + if cfg.maxRetries < 0 then 1 else 1 + cfg.maxRetries)
            && ((failures <= cfg.maxRetries || failures == 0) && !Retriable(transport(st.sent + failures)) ==>
                  r == Verdict(transport(st.sent + failures)) && after.sent == st.sent + failures + 1)
  {
    QueryAttempts(cfg, transport, st, query, timeout);
    var (r, after) := Execute(cfg, transport, st, query, timeout, true);
    assert Retriable(transport(after.sent - 1)) || after.sent - 1 >= st.sent + failures;
  }

  /** The lag of a probe is read off the first row: the cell called `lag_seconds` (the first one, if several) unless it
      is null, and otherwise the first cell of the row that converts to a number. */
  lemma ProbeLagMeaning(rows: seq<Row>, k: nat)
    requires rows != [] && k < |rows[0]|
    ensures rows[0][k].0 == "lag_seconds" && (forall i | 0 <= i < k :: rows[0][i].0 != "lag_seconds") ==>
              && (rows[0][k].1.Num? ==> ProbeLag(rows) == Some(rows[0][k].1.value))
              && (rows[0][k].1.NotNumeric? ==> ProbeLag(rows) == None)
              && (rows[0][k].1.Null? ==> ProbeLag(rows) == FirstNumber(rows[0]))
    ensures (forall i | 0 <= i < |rows[0]| :: rows[0][i].0 != "lag_seconds") ==> ProbeLag(rows) == FirstNumber(rows[0])
    ensures rows[0][k].1.Num? && (forall i | 0 <= i < k :: !rows[0][i].1.Num?) ==>
              FirstNumber(rows[0]) == Some(rows[0][k].1.value)
    ensures (forall i | 0 <= i < |rows[0]| :: !rows[0][i].1.Num?) ==> FirstNumber(rows[0]) == None
  {
    CellIsFirst(rows[0], "lag_seconds", k);
    NumberIsFirst(rows[0], k);
  }

  lemma {:induction false} CellIsFirst(row: Row, name: string, k: nat)
    requires k < |row|
    ensures row[k].0 == name && (forall i | 0 <= i < k :: row[i].0 != name) ==> CellNamed(row, name) == Some(row[k].1)
    ensures (forall i | 0 <= i < |row| :: row[i].0 != name) ==> CellNamed(row, name) == None
  {
    if |row| > 1 { CellIsFirst(row[1..], name, if k > 0 then k - 1 else 0); }
  }

  lemma {:induction false} NumberIsFirst(row: Row, k: nat)
    requires k < |row|
    ensures row[k].1.Num? && (forall i | 0 <= i < k :: !row[i].1.Num?) ==> FirstNumber(row) == Some(row[k].1.value)
    ensures (forall i | 0 <= i < |row| :: !row[i].1.Num?) ==> FirstNumber(row) == None
  {
    if |row| > 1 { NumberIsFirst(row[1..], if k > 0 then k - 1 else 0); }
  }

  predicate Probing(cfg: ClientConfig) {
    cfg.probeEnabled && cfg.probeInterval >= 1
  }

  /** The answer to a probe that leaves the backend healthy: rows with a readable lag within the limit. */
  predicate Fresh(cfg: ClientConfig, o: Outcome) {
    o.Rows? && ProbeLag(o.rows).Some? && ProbeLag(o.rows).value <= cfg.maxLag
  }

  /** A success triggers at most one probe; the probe never triggers another one, and adds its own health record and,
      unless its last answer shows an acceptable lag, a failure on top. */
  lemma ProbeIsBounded(cfg: ClientConfig, transport: nat -> Outcome, st: State)
    requires st.available && !Text.AllSpace(cfg.lagSql) && cfg.probeTimeout > 0.0
    ensures var after := MaybeProbe(cfg, transport, st);
            var allowed := if cfg.maxRetries < 0 then 1 else 1 + cfg.maxRetries;
            && after.available
            && after.streak == st.streak + (if Probing(cfg) then 1 else 0)
            && after.probes == st.probes + (if Probing(cfg) && (st.streak + 1) % cfg.probeInterval == 0 then 1 else 0)
            && st.health <= after.health
            && (after.probes == st.probes ==> after.sent == st.sent && after.health == st.health)
            && (after.probes > st.probes ==>
                  && st.sent < after.sent <= st.sent + allowed
                  && |st.health| + 1 <= |after.health| <= |st.health| + 2
                  && after.health[|st.health|] == transport(after.sent - 1).Rows?
                  && (|after.health| == |st.health| + 1 <==> Fresh(cfg, transport(after.sent - 1)))
                  && (|after.health| == |st.health| + 2 ==> !after.health[|st.health| + 1]))
  {
    if Probing(cfg) && (st.streak + 1) % cfg.probeInterval == 0 {
      QueryAttempts(cfg, transport, st.(streak := st.streak + 1, probes := st.probes + 1), cfg.lagSql,
                    cfg.probeTimeout);
    }
  }

  /** A whole query, probe included: the same result as without the probe, exactly one health record of its own before
      anything the probe adds, and never more than twice the allowed attempts. */
  lemma WholeQuery(cfg: ClientConfig, transport: nat -> Outcome, st: State, query: string, timeout: real)
    requires Probing(cfg) ==> !Text.AllSpace(cfg.lagSql) && cfg.probeTimeout > 0.0
    requires !Text.AllSpace(query) && timeout > 0.0 && st.available
    ensures var (r, after) := Execute(cfg, transport, st, query, timeout, false);
            && r == Execute(cfg, transport, st, query, timeout, true).0
            && st.health + [r.Success?] <= after.health && |after.health| <= |st.health| + 3
            && st.sent < after.sent <= st.sent + 2 * (if cfg.maxRetries < 0 then 1 else 1 + cfg.maxRetries)
            && after.probes <= st.probes + 1
            && (!r.Success? ==> after == Execute(cfg, transport, st, query, timeout, true).1)
  {
    QueryAttempts(cfg, transport, st, query, timeout);
    var (r, own) := Execute(cfg, transport, st, query, timeout, true);
    if r.Success? && Probing(cfg) { ProbeIsBounded(cfg, transport, own); }
  }

  // ---- A whole run

  datatype Call = Call(query: string, timeout: real)

  /** Runs the calls one after the other; also counts the successful ones. */
  function Run(cfg: ClientConfig, transport: nat -> Outcome, st: State, calls: seq<Call>): (State, nat) {
    if calls == [] then (st, 0)
    else
      var (before, successes) := Run(cfg, transport, st, calls[..|calls| - 1]);
      var c := calls[|calls| - 1];
      var (r, after) := Execute(cfg, transport, before, c.query, c.timeout, false);
      (after, successes + if r.Success? then 1 else 0)
  }

  lemma DivStep(n: nat, k: int)
    requires k >= 1
    ensures (n + 1) / k == n / k + (if (n + 1) % k == 0 then 1 else 0)
  {
    var q, m := n / k, n % k;
    assert n == q * k + m;
    if m + 1 == k {
      assert n + 1 == (q + 1) * k + 0;
      Quotient(n + 1, k, q + 1, 0);
    } else {
      Quotient(n + 1, k, q, m + 1);
    }
  }

  lemma Quotient(n: nat, k: int, q: int, m: int)
    requires k >= 1 && n == q * k + m && 0 <= m < k
    ensures n / k == q && n % k == m
  {
    var d := n / k - q;
    assert n == (n / k) * k + n % k;
    assert d * k == (n / k) * k - q * k == m - n % k;
    AtLeastOne(d, k);
    AtLeastOne(-d, k);
  }

  lemma AtLeastOne(d: int, k: int)
    requires k >= 1
    ensures d >= 1 ==> d * k >= k
  {
    if d >= 1 { assert (d - 1) * k >= 0; }
  }

  /** What one query more does to the counters. */
  lemma ProbesStep(cfg: ClientConfig, transport: nat -> Outcome, st: State, c: Call)
    requires st.available && (Probing(cfg) ==> !Text.AllSpace(cfg.lagSql) && cfg.probeTimeout > 0.0)
    ensures var (r, after) := Execute(cfg, transport, st, c.query, c.timeout, false);
            var counted := r.Success? && Probing(cfg);
            && after.available && after.streak == st.streak + (if counted then 1 else 0)
            && after.probes == st.probes + if counted && (st.streak + 1) % cfg.probeInterval == 0 then 1 else 0
  {
    QueryAttempts(cfg, transport, st, c.query, c.timeout);
    var (r, own) := Execute(cfg, transport, st, c.query, c.timeout, true);
    if r.Success? && Probing(cfg) { ProbeIsBounded(cfg, transport, own); }
  }

  /** Main result on the probe: over any run of a fresh, available client, n successful queries cause exactly n div
      interval lag probes when probing is on, and none when it is off. */
  lemma {:induction false} ProbesOverRun(cfg: ClientConfig, transport: nat -> Outcome, st: State, calls: seq<Call>)
    requires st.available && st.streak == 0 && st.probes == 0
    requires Probing(cfg) ==> !Text.AllSpace(cfg.lagSql) && cfg.probeTimeout > 0.0
    ensures var (after, successes) := Run(cfg, transport, st, calls);
            && after.available
            && after.streak == (if Probing(cfg) then successes else 0)
            && after.probes == (if Probing(cfg) then successes / cfg.probeInterval else 0)
  {
    if calls != [] {
      var init, c := calls[..|calls| - 1], calls[|calls| - 1];
      ProbesOverRun(cfg, transport, st, init);
      var (before, successes) := Run(cfg, transport, st, init);
      hide Execute;
      ProbesStep(cfg, transport, before, c);
      if Probing(cfg) { DivStep(successes, cfg.probeInterval); }
    }
  }
}
