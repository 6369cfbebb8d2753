/** The background job that fingerprints one URL's captures for one year
    (package `worker`). The job lists the year's captures from the Wayback
    Machine's CDX index, then takes them in order: a capture whose simhash is
    already stored is skipped; any other is downloaded, reduced to features,
    fingerprinted and stored under `simhash:<url>:<timestamp>`. Each failed
    capture counts against an error budget, and the job gives up once the
    count reaches `MaxErrors`; it also stops when its context is cancelled.

    The outside world is a parameter (`Env`): the CDX index, the replay
    server, the Redis calls that fail, the HTML parser, the Unicode tables and
    BLAKE2b-512. The Redis store itself is the worker's `store` field. */
module Worker {
  import opened Wrappers
  import opened Bytes
  import opened Text
  import opened Html
  import SimHash
  import Base64

  /** The decoded task payload. */
  datatype Payload = Payload(url: string, year: int)

  /** The CDX index's answer: a transport or JSON decoding failure, or the
      rows of the JSON array (the first row is the header). */
  datatype IndexReply = IndexFailure | Rows(rows: seq<seq<string>>)

  /** The replay server's answer: a failure to build or send the request, or a
      response whose body can be read in full (`Some`) or not (`None`). */
  datatype Reply = TransportError | Response(status: int, contentType: string, body: Option<seq<byte>>)

  /** Everything the job learns from outside while it runs. */
  datatype Env = Env(
    cdx: (string, int) -> IndexReply,
    replay: (string, string) -> Reply,
    existsFails: set<string>,
    setFails: set<string>,
    parse: seq<byte> -> Option<Node>,
    unicode: Unicode,
    blake2b: string -> SimHash.Digest)

  /** The settings of `config.AppConfig` the job reads: `Simhash.Size` and
      `MaxErrors`. */
  datatype Config = Config(size: nat, maxErrors: int)

  /** The errors the job reports. */
  datatype Error =
    | PayloadInvalid
    | IndexFailed
    | NoSnapshots
    | StoreFailed
    | TransportFailed
    | UnexpectedStatus(code: int)
    | NotHTML(contentType: string)
    | BodyUnreadable
    | NoFeatures
    | MaxErrorsReached(max: int)
    | /** `ctx.Err()`: the task's context was cancelled or passed its deadline. */
      ContextDone

  const StatusOK := 200

  /** The Redis key of a capture's simhash: the prefix `simhash:`, the URL,
      a colon and the timestamp, each to be read back at its place. */
  function Key(url: string, timestamp: string): (k: string)
    ensures |k| == |url| + |timestamp| + 9
    ensures k[..8] == "simhash:" && k[8..8 + |url|] == url && k[8 + |url|] == ':' && k[9 + |url|..] == timestamp
  {
    "simhash:" + url + ":" + timestamp
  }

  /** `isHTMLContent`: the type is accepted exactly when its lower-case form
      holds `text/html` or `application/xhtml` somewhere. */
  function IsHTMLContent(u: Unicode, contentType: string): (b: bool)
    ensures b <==>
      (exists i :: OccursAt(ToLower(u, contentType), "text/html", i))
      || (exists i :: OccursAt(ToLower(u, contentType), "application/xhtml", i))
  {
    ContainsIff(ToLower(u, contentType), "text/html");
    ContainsIff(ToLower(u, contentType), "application/xhtml");
    Contains(ToLower(u, contentType), "text/html") || Contains(ToLower(u, contentType), "application/xhtml")
  }

  /** What `downloadSnapshot` returns for a capture. */
  function Downloaded(env: Env, url: string, timestamp: string): Result<seq<byte>, Error>
  {
    match env.replay(url, timestamp)
    case TransportError => Err(TransportFailed)
    case Response(status, contentType, body) =>
      if status != StatusOK then Err(UnexpectedStatus(status))
      else if !IsHTMLContent(env.unicode, contentType) then Err(NotHTML(contentType))
      else if body.None? then Err(BodyUnreadable)
      else Ok(body.value)
  }

  /** Column 1 of every row that has more than one column, in order. */
  function ColumnOne(rows: seq<seq<string>>): seq<string>
  {
    if rows == [] then []
    else
      var front := ColumnOne(rows[..|rows| - 1]);
      var row := rows[|rows| - 1];
      if |row| > 1 then front + [row[1]] else front
  }

  /** What `getSnapshots` returns. */
  function SnapshotsOf(env: Env, url: string, year: int): Result<seq<string>, Error>
  {
    match env.cdx(url, year)
    case IndexFailure => Err(IndexFailed)
    case Rows(rows) => if |rows| < 2 then Err(NoSnapshots) else Ok(ColumnOne(rows[1..]))
  }

  /** What happened to one capture. */
  datatype Step = Skipped | Stored(value: string) | Failed(error: Error)

  /** The existence check of `processSnapshot`: a failed check is an error,
      a stored key is skipped, and otherwise the capture goes on to `fetchStep`,
      what downloading and fingerprinting it comes to. */
  function Check(existsFails: set<string>, store: map<string, string>, key: string, fetchStep: Step): Step
  {
    if key in existsFails then Failed(StoreFailed)
    else if key in store then Skipped
    else fetchStep
  }

  /** The capture is downloaded: the existence check succeeded and the key
      is not stored. */
  predicate Fetches(existsFails: set<string>, store: map<string, string>, key: string)
  {
    key !in existsFails && key !in store
  }

  /** The stored form of a feature map's simhash. */
  ghost function Encoded(env: Env, size: nat, features: map<string, int>): string
  {
    Base64.Encode(SimHash.Pack(SimHash.SimHashOf(features, size, env.blake2b)))
  }

  /** What a capture that is downloaded comes to. */
  ghost function FreshStep(env: Env, size: nat, url: string, timestamp: string): Step
  {
    match Downloaded(env, url, timestamp)
    case Err(e) => Failed(e)
    case Ok(content) =>
      var features := SimHash.Features(env.parse, env.unicode, content);
      if |features| == 0 then Failed(NoFeatures)
      else if Key(url, timestamp) in env.setFails then Failed(StoreFailed)
      else Stored(Encoded(env, size, features))
  }

  /** `processSnapshot`, as a function of the store it starts from. */
  ghost function SnapshotStep(env: Env, size: nat, store: map<string, string>, url: string, timestamp: string): Step
  {
    Check(env.existsFails, store, Key(url, timestamp), FreshStep(env, size, url, timestamp))
  }

  /** The store after a step: only a stored simhash changes it. */
  function AfterStep(store: map<string, string>, key: string, step: Step): map<string, string>
  {
    if step.Stored? then store[key := step.value] else store
  }

  function ErrorOf(step: Step): Option<Error>
  {
    if step.Failed? then Some(step.error) else None
  }

  /** One capture as the job saw it. */
  datatype Event = Event(timestamp: string, step: Step, fetched: bool)

  /** The outcome of a job or of the rest of one: the error returned (`None`
      for nil), the captures taken in order, the store and the error count at
      the end. */
  datatype Run = Run(result: Option<Error>, trace: seq<Event>, store: map<string, string>, errs: int)

  /** A run preceded by some events. */
  function Extend(events: seq<Event>, r: Run): Run
  {
    Run(r.result, events + r.trace, r.store, r.errs)
  }

  /** What stays fixed while `processURLForYear` loops over the captures:
      the keys whose existence check fails, the error budget, the URL, the
      listed timestamps, whether the context is done when capture `i` comes
      up, and what each capture comes to once downloaded. */
  datatype Loop = Loop(existsFails: set<string>, maxErrors: int, url: string, snaps: seq<string>,
                       done: nat -> bool, fetchStep: string -> Step)

  ghost function LoopOf(env: Env, config: Config, url: string, snaps: seq<string>, done: nat -> bool): Loop
  {
    Loop(env.existsFails, config.maxErrors, url, snaps, done, timestamp => FreshStep(env, config.size, url, timestamp))
  }

  /** `lp` is the loop a worker with these settings runs: same failing
      existence checks, same budget, and each downloaded capture comes to
      what `FreshStep` says. */
  ghost predicate Follows(lp: Loop, env: Env, config: Config)
  {
    lp.existsFails == env.existsFails && lp.maxErrors == config.maxErrors
    && forall timestamp {:trigger FreshStep(env, config.size, lp.url, timestamp)} ::
         lp.fetchStep(timestamp) == FreshStep(env, config.size, lp.url, timestamp)
  }

  lemma LoopOfFollows(env: Env, config: Config, url: string, snaps: seq<string>, done: nat -> bool)
    ensures var lp := LoopOf(env, config, url, snaps, done);
      Follows(lp, env, config) && lp.url == url && lp.snaps == snaps && lp.done == done
  {
  }

  /** A downloaded capture is never skipped. */
  ghost predicate ValidLoop(lp: Loop)
  {
    forall timestamp :: !lp.fetchStep(timestamp).Skipped?
  }

  /** What capture `i` comes to with the store as it is. */
  function StepAt(lp: Loop, i: nat, store: map<string, string>): Step
    requires i < |lp.snaps|
  {
    Check(lp.existsFails, store, Key(lp.url, lp.snaps[i]), lp.fetchStep(lp.snaps[i]))
  }

  function EventAt(lp: Loop, i: nat, store: map<string, string>): Event
    requires i < |lp.snaps|
  {
    Event(lp.snaps[i], StepAt(lp, i, store), Fetches(lp.existsFails, store, Key(lp.url, lp.snaps[i])))
  }

  /** The error count after capture `i`. */
  function ErrsAfter(lp: Loop, i: nat, store: map<string, string>, errs: int): int
    requires i < |lp.snaps|
  {
    if StepAt(lp, i, store).Failed? then errs + 1 else errs
  }

  /** Capture `i` is a failure that brings the count up to the budget. */
  predicate Exhausts(lp: Loop, i: nat, store: map<string, string>, errs: int)
    requires i < |lp.snaps|
  {
    StepAt(lp, i, store).Failed? && errs + 1 >= lp.maxErrors
  }

  /** The loop of `processURLForYear` from capture `i` on, with the store
      and error count it has reached. */
  function RunFrom(lp: Loop, i: nat, store: map<string, string>, errs: int): Run
    requires i <= |lp.snaps|
    decreases |lp.snaps| - i
  {
    if i == |lp.snaps| then Run(None, [], store, errs)
    else if lp.done(i) then Run(Some(ContextDone), [], store, errs)
    else if Exhausts(lp, i, store, errs) then
      Run(Some(MaxErrorsReached(lp.maxErrors)), [EventAt(lp, i, store)], store, errs + 1)
    else
      var store' := AfterStep(store, Key(lp.url, lp.snaps[i]), StepAt(lp, i, store));
      Extend([EventAt(lp, i, store)], RunFrom(lp, i + 1, store', ErrsAfter(lp, i, store, errs)))
  }

  /** One turn of the loop, for a capture the context lets through. */
  lemma RunFromStep(lp: Loop, i: nat, store: map<string, string>, errs: int)
    requires i < |lp.snaps| && !lp.done(i)
    ensures Exhausts(lp, i, store, errs) ==>
      RunFrom(lp, i, store, errs) == Run(Some(MaxErrorsReached(lp.maxErrors)), [EventAt(lp, i, store)], store, errs + 1)
    ensures !Exhausts(lp, i, store, errs) ==>
      RunFrom(lp, i, store, errs)
        == Extend([EventAt(lp, i, store)],
                  RunFrom(lp, i + 1, AfterStep(store, Key(lp.url, lp.snaps[i]), StepAt(lp, i, store)),
                          ErrsAfter(lp, i, store, errs)))
  {
  }

  /** Two runs that end alike: same error, same store, same count. */
  predicate SameEnd(a: Run, b: Run)
  {
    a.result == b.result && a.store == b.store && a.errs == b.errs
  }

  /** `rest` is what remains of `total` once the events `taken` have happened. */
  predicate Remains(total: Run, taken: seq<Event>, rest: Run)
  {
    SameEnd(total, rest) && total.trace == taken + rest.trace
  }

  /** One capture the context lets through moves its event from the rest of
      the run to the events taken. */
  lemma RemainsStep(lp: Loop, i: nat, store: map<string, string>, errs: int, total: Run, taken: seq<Event>)
    requires i < |lp.snaps| && !lp.done(i)
    requires Remains(total, taken, RunFrom(lp, i, store, errs))
    ensures var event := EventAt(lp, i, store);
      Exhausts(lp, i, store, errs) ==>
        total == Run(Some(MaxErrorsReached(lp.maxErrors)), taken + [event], store, errs + 1)
    ensures !Exhausts(lp, i, store, errs) ==>
      Remains(total, taken + [EventAt(lp, i, store)],
              RunFrom(lp, i + 1, AfterStep(store, Key(lp.url, lp.snaps[i]), StepAt(lp, i, store)),
                      ErrsAfter(lp, i, store, errs)))
  {
    RunFromStep(lp, i, store, errs);
    if !Exhausts(lp, i, store, errs) {
      var rest := RunFrom(lp, i + 1, AfterStep(store, Key(lp.url, lp.snaps[i]), StepAt(lp, i, store)),
                          ErrsAfter(lp, i, store, errs));
      assert total.trace == taken + ([EventAt(lp, i, store)] + rest.trace);
      assert total.trace == (taken + [EventAt(lp, i, store)]) + rest.trace;
    }
  }

  /** `processURLForYear`. */
  ghost function Job(env: Env, config: Config, url: string, year: int, done: nat -> bool,
                     store: map<string, string>, errs: int): Run
  {
    match SnapshotsOf(env, url, year)
    case Err(e) => Run(Some(e), [], store, errs)
    case Ok(snaps) => RunFrom(LoopOf(env, config, url, snaps, done), 0, store, errs)
  }

  /** The number of failed captures in a trace. */
  function FailCount(trace: seq<Event>): nat
  {
    if trace == [] then 0
    else (if trace[0].step.Failed? then 1 else 0) + FailCount(trace[1..])
  }

  /** `downloadSnapshot` yields a body only for a 200 response with an HTML
      content type, and a non-200 status or a non-HTML type is rejected
      whatever the body. */
  lemma DownloadChecks(env: Env, url: string, timestamp: string)
    ensures var reply := env.replay(url, timestamp);
      var r := Downloaded(env, url, timestamp);
      (r.Ok? <==> reply.Response? && reply.status == StatusOK
                  && IsHTMLContent(env.unicode, reply.contentType) && reply.body.Some?)
      && (r.Ok? ==> r.value == reply.body.value)
      && (reply.Response? && reply.status != StatusOK ==> r == Err(UnexpectedStatus(reply.status)))
      && (reply.Response? && reply.status == StatusOK && !IsHTMLContent(env.unicode, reply.contentType) ==>
            r == Err(NotHTML(reply.contentType)))
  {
  }

  /** `getSnapshots` keeps at most one timestamp per data row. */
  lemma {:induction false} ColumnOneLength(rows: seq<seq<string>>)
    ensures |ColumnOne(rows)| <= |rows|
  {
    if rows != [] {
      ColumnOneLength(rows[..|rows| - 1]);
    }
  }

  /** Row `k` has a second column, and it holds `timestamp`. */
  predicate HasTimestamp(rows: seq<seq<string>>, k: int, timestamp: string)
  {
    0 <= k < |rows| && |rows[k]| > 1 && rows[k][1] == timestamp
  }

  /** The timestamps `getSnapshots` returns are exactly the second columns of
      the rows that have one. */
  lemma {:induction false} ColumnOneMembers(rows: seq<seq<string>>, timestamp: string)
    ensures timestamp in ColumnOne(rows) <==> exists k :: HasTimestamp(rows, k, timestamp)
  {
    if rows != [] {
      var front := rows[..|rows| - 1];
      ColumnOneMembers(front, timestamp);
      if timestamp in ColumnOne(rows) && timestamp !in ColumnOne(front) {
        assert HasTimestamp(rows, |rows| - 1, timestamp);
      }
      if exists k :: HasTimestamp(front, k, timestamp) {
        var k :| HasTimestamp(front, k, timestamp);
        assert HasTimestamp(rows, k, timestamp);
      }
      if exists k :: HasTimestamp(rows, k, timestamp) {
        var k :| HasTimestamp(rows, k, timestamp);
        if k < |rows| - 1 {
          assert HasTimestamp(front, k, timestamp);
        } else {
          assert ColumnOne(rows) == ColumnOne(front) + [timestamp];
        }
      }
    }
  }

  /** The characters after the last `:` (all of `s` when it has none). */
  function AfterLastColon(s: string): string
  {
    if s == [] || s[|s| - 1] == ':' then [] else AfterLastColon(s[..|s| - 1]) + [s[|s| - 1]]
  }

  lemma {:induction false} AfterLastColonOf(p: string, t: string)
    requires ':' !in t
    ensures AfterLastColon(p + ":" + t) == t
  {
    var s := p + ":" + t;
    if t != [] {
      var front := t[..|t| - 1];
      assert s[..|s| - 1] == p + ":" + front;
      assert s[|s| - 1] == t[|t| - 1];
      AfterLastColonOf(p, front);
      assert t == front + [t[|t| - 1]];
    }
  }

  /** Captures with timestamps free of `:` (CDX timestamps are digits) never
      share a key, so each capture has its own slot in the store. */
  lemma KeyDeterminesCapture(url1: string, ts1: string, url2: string, ts2: string)
    requires ':' !in ts1 && ':' !in ts2
    requires Key(url1, ts1) == Key(url2, ts2)
    ensures url1 == url2 && ts1 == ts2
  {
    var k := Key(url1, ts1);
    AfterLastColonOf("simhash:" + url1, ts1);
    AfterLastColonOf("simhash:" + url2, ts2);
    assert "simhash:" + url1 == k[..|k| - |ts1| - 1] == "simhash:" + url2;
    assert url1 == ("simhash:" + url1)[8..] == ("simhash:" + url2)[8..] == url2;
  }

  /** What one capture comes to: it is skipped exactly when its key is
      stored; a simhash is stored exactly when the key is absent, the
      download yields HTML with at least one feature and the write succeeds,
      and what is stored is the encoded simhash of those features. */
  lemma SnapshotStepOutcomes(env: Env, size: nat, store: map<string, string>, url: string, timestamp: string)
    ensures var step := SnapshotStep(env, size, store, url, timestamp);
      var key := Key(url, timestamp);
      var download := Downloaded(env, url, timestamp);
      (step.Skipped? <==> key !in env.existsFails && key in store)
      && (step.Stored? <==>
            Fetches(env.existsFails, store, key) && download.Ok?
            && |SimHash.Features(env.parse, env.unicode, download.value)| > 0
            && key !in env.setFails)
      && (step.Stored? ==>
            step.value == Encoded(env, size, SimHash.Features(env.parse, env.unicode, download.value)))
  {
  }

  /** The stored text is 12 characters of Base64 that decode back to the
      simhash of the features. */
  lemma EncodedDecodes(env: Env, size: nat, features: map<string, int>)
    ensures |Encoded(env, size, features)| == 12
    ensures SimHash.Decoded(Encoded(env, size, features)) == (SimHash.SimHashOf(features, size, env.blake2b), false)
  {
    SimHash.DecodeEncodeSimHash(SimHash.SimHashOf(features, size, env.blake2b));
  }

  /** The loop takes the captures in order, from the first on, and each one
      it takes found the context not done. */
  lemma {:induction false} RunVisitsInOrder(lp: Loop, i: nat, store: map<string, string>, errs: int)
    requires i <= |lp.snaps|
    ensures var r := RunFrom(lp, i, store, errs);
      |r.trace| <= |lp.snaps| - i
      && forall k :: 0 <= k < |r.trace| ==> r.trace[k].timestamp == lp.snaps[i + k] && !lp.done(i + k)
    decreases |lp.snaps| - i
  {
    if i < |lp.snaps| && !lp.done(i) && !Exhausts(lp, i, store, errs) {
      RunFromStep(lp, i, store, errs);
      var store' := AfterStep(store, Key(lp.url, lp.snaps[i]), StepAt(lp, i, store));
      var r := RunFrom(lp, i, store, errs);
      var rest := RunFrom(lp, i + 1, store', ErrsAfter(lp, i, store, errs));
      RunVisitsInOrder(lp, i + 1, store', ErrsAfter(lp, i, store, errs));
      assert r.trace == [EventAt(lp, i, store)] + rest.trace;
      forall k | 0 <= k < |r.trace|
        ensures r.trace[k].timestamp == lp.snaps[i + k] && !lp.done(i + k)
      {
        if k > 0 {
          assert r.trace[k] == rest.trace[k - 1];
        }
      }
    }
  }

  /** The error count ends up raised by one per failed capture. */
  lemma {:induction false} RunCountsFailures(lp: Loop, i: nat, store: map<string, string>, errs: int)
    requires i <= |lp.snaps|
    ensures var r := RunFrom(lp, i, store, errs);
      r.errs == errs + FailCount(r.trace)
    decreases |lp.snaps| - i
  {
    if i < |lp.snaps| && !lp.done(i) {
      RunFromStep(lp, i, store, errs);
      var r := RunFrom(lp, i, store, errs);
      if Exhausts(lp, i, store, errs) {
        assert r.trace[1..] == [];
      } else {
        var store' := AfterStep(store, Key(lp.url, lp.snaps[i]), StepAt(lp, i, store));
        var rest := RunFrom(lp, i + 1, store', ErrsAfter(lp, i, store, errs));
        RunCountsFailures(lp, i + 1, store', ErrsAfter(lp, i, store, errs));
        assert r.trace[1..] == rest.trace;
      }
    }
  }

  /** How a run ends: nil after every capture, the context's error at the
      first capture that finds it done, or the budget error right after the
      failure that spent it. */
  lemma {:induction false} RunOutcome(lp: Loop, i: nat, store: map<string, string>, errs: int)
    requires i <= |lp.snaps|
    ensures var r := RunFrom(lp, i, store, errs);
      (r.result == None || r.result == Some(ContextDone) || r.result == Some(MaxErrorsReached(lp.maxErrors)))
      && (r.result == None ==> |r.trace| == |lp.snaps| - i)
      && (r.result == Some(ContextDone) ==> i + |r.trace| < |lp.snaps| && lp.done(i + |r.trace|))
      && (r.result == Some(MaxErrorsReached(lp.maxErrors)) ==>
            r.trace != [] && r.trace[|r.trace| - 1].step.Failed? && r.errs >= lp.maxErrors)
    decreases |lp.snaps| - i
  {
    if i < |lp.snaps| && !lp.done(i) && !Exhausts(lp, i, store, errs) {
      RunFromStep(lp, i, store, errs);
      var store' := AfterStep(store, Key(lp.url, lp.snaps[i]), StepAt(lp, i, store));
      RunOutcome(lp, i + 1, store', ErrsAfter(lp, i, store, errs));
    }
  }

  /** A failure brings the count up to the budget exactly when it is the last
      capture of a run that gives up: every earlier failure left the count
      below `MaxErrors`. */
  lemma {:induction false} RunBudget(lp: Loop, i: nat, store: map<string, string>, errs: int)
    requires i <= |lp.snaps|
    ensures var r := RunFrom(lp, i, store, errs);
      forall k :: 0 <= k < |r.trace| && r.trace[k].step.Failed? ==>
        ((errs + FailCount(r.trace[..k + 1]) >= lp.maxErrors)
          <==> (k == |r.trace| - 1 && r.result == Some(MaxErrorsReached(lp.maxErrors))))
    decreases |lp.snaps| - i
  {
    if i < |lp.snaps| && !lp.done(i) {
      RunFromStep(lp, i, store, errs);
      var r := RunFrom(lp, i, store, errs);
      if Exhausts(lp, i, store, errs) {
        assert r.trace[..1] == r.trace;
        assert r.trace[1..] == [];
      } else {
        var errs' := ErrsAfter(lp, i, store, errs);
        var store' := AfterStep(store, Key(lp.url, lp.snaps[i]), StepAt(lp, i, store));
        RunBudget(lp, i + 1, store', errs');
        RunOutcome(lp, i + 1, store', errs');
        BudgetStep(EventAt(lp, i, store), errs, errs', lp.maxErrors, r, RunFrom(lp, i + 1, store', errs'));
      }
    }
  }

  /** The budget property carried back over one capture that did not spend
      the budget. */
  lemma BudgetStep(e: Event, errs: int, errs': int, maxErrors: int, r: Run, rest: Run)
    requires r.trace == [e] + rest.trace && r.result == rest.result
    requires errs' == if e.step.Failed? then errs + 1 else errs
    requires !(e.step.Failed? && errs + 1 >= maxErrors)
    requires rest.result == Some(MaxErrorsReached(maxErrors)) ==> rest.trace != []
    requires forall k :: 0 <= k < |rest.trace| && rest.trace[k].step.Failed? ==>
      ((errs' + FailCount(rest.trace[..k + 1]) >= maxErrors)
        <==> (k == |rest.trace| - 1 && rest.result == Some(MaxErrorsReached(maxErrors))))
    ensures forall k :: 0 <= k < |r.trace| && r.trace[k].step.Failed? ==>
      ((errs + FailCount(r.trace[..k + 1]) >= maxErrors)
        <==> (k == |r.trace| - 1 && r.result == Some(MaxErrorsReached(maxErrors))))
  {
    forall k | 0 <= k < |r.trace| && r.trace[k].step.Failed?
      ensures (errs + FailCount(r.trace[..k + 1]) >= maxErrors)
              <==> (k == |r.trace| - 1 && r.result == Some(MaxErrorsReached(maxErrors)))
    {
      if k > 0 {
        assert r.trace[..k + 1][1..] == rest.trace[..k];
        assert rest.trace[k - 1] == r.trace[k];
      } else {
        assert r.trace[..1][1..] == [];
      }
    }
  }

  /** `trace[k]` stored a simhash under `key`. */
  predicate WrittenAt(url: string, trace: seq<Event>, k: int, key: string)
  {
    0 <= k < |trace| && trace[k].step.Stored? && Key(url, trace[k].timestamp) == key
  }

  /** The store only gains the keys of the captures stored during the run,
      and what it held before is left as it was. */
  lemma {:induction false} RunStoreKeys(lp: Loop, i: nat, store: map<string, string>, errs: int)
    requires i <= |lp.snaps|
    ensures var r := RunFrom(lp, i, store, errs);
      (forall key :: key in r.store <==> key in store || exists k :: WrittenAt(lp.url, r.trace, k, key))
      && (forall key :: key in store ==> r.store[key] == store[key])
    decreases |lp.snaps| - i
  {
    if i < |lp.snaps| && !lp.done(i) && !Exhausts(lp, i, store, errs) {
      RunFromStep(lp, i, store, errs);
      var store' := AfterStep(store, Key(lp.url, lp.snaps[i]), StepAt(lp, i, store));
      RunStoreKeys(lp, i + 1, store', ErrsAfter(lp, i, store, errs));
      StoreKeysStep(lp.url, EventAt(lp, i, store), store, RunFrom(lp, i, store, errs),
                    RunFrom(lp, i + 1, store', ErrsAfter(lp, i, store, errs)));
    }
  }

  /** The store property carried back over one capture: a stored simhash
      adds its own key, which was not there before. */
  lemma StoreKeysStep(url: string, e: Event, store: map<string, string>, r: Run, rest: Run)
    requires r.store == rest.store && r.trace == [e] + rest.trace
    requires e.step.Stored? ==> Key(url, e.timestamp) !in store
    requires var store' := AfterStep(store, Key(url, e.timestamp), e.step);
      (forall key :: key in rest.store <==> key in store' || exists k :: WrittenAt(url, rest.trace, k, key))
      && (forall key :: key in store' ==> rest.store[key] == store'[key])
    ensures forall key :: key in r.store <==> key in store || exists k :: WrittenAt(url, r.trace, k, key)
    ensures forall key :: key in store ==> r.store[key] == store[key]
  {
    var store' := AfterStep(store, Key(url, e.timestamp), e.step);
    forall key
      ensures key in r.store <==> key in store || exists k :: WrittenAt(url, r.trace, k, key)
    {
      if key in r.store && key !in store {
        if key in store' {
          assert WrittenAt(url, r.trace, 0, key);
        } else {
          var k :| WrittenAt(url, rest.trace, k, key);
          assert WrittenAt(url, r.trace, k + 1, key);
        }
      }
      if exists k :: WrittenAt(url, r.trace, k, key) {
        var k :| WrittenAt(url, r.trace, k, key);
        if k > 0 {
          assert WrittenAt(url, rest.trace, k - 1, key);
        }
      }
    }
  }

  /** Every simhash the run stores is still there, as written, at the end. */
  lemma {:induction false} RunStoreWrites(lp: Loop, i: nat, store: map<string, string>, errs: int)
    requires i <= |lp.snaps|
    ensures var r := RunFrom(lp, i, store, errs);
      forall k :: 0 <= k < |r.trace| && r.trace[k].step.Stored? ==>
        Key(lp.url, r.trace[k].timestamp) in r.store
        && r.store[Key(lp.url, r.trace[k].timestamp)] == r.trace[k].step.value
    decreases |lp.snaps| - i
  {
    if i < |lp.snaps| && !lp.done(i) && !Exhausts(lp, i, store, errs) {
      RunFromStep(lp, i, store, errs);
      var store' := AfterStep(store, Key(lp.url, lp.snaps[i]), StepAt(lp, i, store));
      var r := RunFrom(lp, i, store, errs);
      var rest := RunFrom(lp, i + 1, store', ErrsAfter(lp, i, store, errs));
      RunStoreWrites(lp, i + 1, store', ErrsAfter(lp, i, store, errs));
      RunStoreKeys(lp, i + 1, store', ErrsAfter(lp, i, store, errs));
      assert r.trace == [EventAt(lp, i, store)] + rest.trace;
      forall k | 0 < k < |r.trace|
        ensures r.trace[k] == rest.trace[k - 1]
      {
      }
    }
  }

  /** A capture whose key is already stored is neither downloaded nor
      written again, however often it comes up. */
  lemma {:induction false} RunSkipsStored(lp: Loop, i: nat, store: map<string, string>, errs: int, key: string)
    requires i <= |lp.snaps|
    requires key in store
    ensures var r := RunFrom(lp, i, store, errs);
      forall k :: 0 <= k < |r.trace| && Key(lp.url, r.trace[k].timestamp) == key ==>
        !r.trace[k].fetched && !r.trace[k].step.Stored?
    decreases |lp.snaps| - i
  {
    if i < |lp.snaps| && !lp.done(i) && !Exhausts(lp, i, store, errs) {
      RunFromStep(lp, i, store, errs);
      var store' := AfterStep(store, Key(lp.url, lp.snaps[i]), StepAt(lp, i, store));
      var r := RunFrom(lp, i, store, errs);
      var rest := RunFrom(lp, i + 1, store', ErrsAfter(lp, i, store, errs));
      RunSkipsStored(lp, i + 1, store', ErrsAfter(lp, i, store, errs), key);
      assert r.trace == [EventAt(lp, i, store)] + rest.trace;
      forall k | 0 < k < |r.trace|
        ensures r.trace[k] == rest.trace[k - 1]
      {
      }
    }
  }

  /** Within one run, a capture listed twice is not downloaded again once
      its simhash is stored. */
  lemma {:induction false} RunFetchesOnce(lp: Loop, i: nat, store: map<string, string>, errs: int)
    requires i <= |lp.snaps|
    ensures var r := RunFrom(lp, i, store, errs);
      forall k1, k2 ::
        (0 <= k1 < k2 < |r.trace| && r.trace[k1].step.Stored? && r.trace[k1].timestamp == r.trace[k2].timestamp)
        ==> !r.trace[k2].fetched
    decreases |lp.snaps| - i
  {
    if i < |lp.snaps| && !lp.done(i) && !Exhausts(lp, i, store, errs) {
      RunFromStep(lp, i, store, errs);
      var store' := AfterStep(store, Key(lp.url, lp.snaps[i]), StepAt(lp, i, store));
      var r := RunFrom(lp, i, store, errs);
      var rest := RunFrom(lp, i + 1, store', ErrsAfter(lp, i, store, errs));
      RunFetchesOnce(lp, i + 1, store', ErrsAfter(lp, i, store, errs));
      if StepAt(lp, i, store).Stored? {
        RunSkipsStored(lp, i + 1, store', ErrsAfter(lp, i, store, errs), Key(lp.url, lp.snaps[i]));
      }
      assert r.trace == [EventAt(lp, i, store)] + rest.trace;
      forall k | 0 < k < |r.trace|
        ensures r.trace[k] == rest.trace[k - 1]
      {
      }
    }
  }

  /** Every capture of a run that was not a failure has its key stored at
      the end. */
  lemma {:induction false} RunKeepsVisited(lp: Loop, i: nat, store: map<string, string>, errs: int)
    requires ValidLoop(lp)
    requires i <= |lp.snaps|
    ensures var r := RunFrom(lp, i, store, errs);
      forall k :: 0 <= k < |r.trace| && !r.trace[k].step.Failed? ==> Key(lp.url, r.trace[k].timestamp) in r.store
    decreases |lp.snaps| - i
  {
    if i < |lp.snaps| && !lp.done(i) && !Exhausts(lp, i, store, errs) {
      RunFromStep(lp, i, store, errs);
      var store' := AfterStep(store, Key(lp.url, lp.snaps[i]), StepAt(lp, i, store));
      var r := RunFrom(lp, i, store, errs);
      var rest := RunFrom(lp, i + 1, store', ErrsAfter(lp, i, store, errs));
      if !StepAt(lp, i, store).Failed? {
        assert Key(lp.url, lp.snaps[i]) in store';
      }
      RunKeepsVisited(lp, i + 1, store', ErrsAfter(lp, i, store, errs));
      RunStoreKeys(lp, i + 1, store', ErrsAfter(lp, i, store, errs));
      assert r.trace == [EventAt(lp, i, store)] + rest.trace;
      forall k | 0 < k < |r.trace|
        ensures r.trace[k] == rest.trace[k - 1]
      {
      }
    }
  }

  /** A run over captures whose keys are all stored downloads nothing and
      writes nothing. */
  lemma {:induction false} RerunFetchesNothing(lp: Loop, i: nat, store: map<string, string>, errs: int)
    requires i <= |lp.snaps|
    requires forall j :: i <= j < |lp.snaps| ==> Key(lp.url, lp.snaps[j]) in store
    ensures var r := RunFrom(lp, i, store, errs);
      r.store == store && forall k :: 0 <= k < |r.trace| ==> !r.trace[k].fetched && !r.trace[k].step.Stored?
    decreases |lp.snaps| - i
  {
    if i < |lp.snaps| && !lp.done(i) && !Exhausts(lp, i, store, errs) {
      RunFromStep(lp, i, store, errs);
      var r := RunFrom(lp, i, store, errs);
      var rest := RunFrom(lp, i + 1, store, ErrsAfter(lp, i, store, errs));
      assert AfterStep(store, Key(lp.url, lp.snaps[i]), StepAt(lp, i, store)) == store;
      RerunFetchesNothing(lp, i + 1, store, ErrsAfter(lp, i, store, errs));
      assert r.trace == [EventAt(lp, i, store)] + rest.trace;
      forall k | 0 < k < |r.trace|
        ensures r.trace[k] == rest.trace[k - 1]
      {
      }
    }
  }

  /** No event of a trace with no failures is a failure. */
  lemma {:induction false} FailCountZero(trace: seq<Event>, k: nat)
    requires FailCount(trace) == 0 && k < |trace|
    ensures !trace[k].step.Failed?
  {
    if k > 0 {
      FailCountZero(trace[1..], k - 1);
    }
  }

  /** A job whose listing fails changes nothing and returns the listing's
      error; any job raises the error count by one per failed capture. */
  lemma JobAccounting(env: Env, config: Config, url: string, year: int, done: nat -> bool,
                      store: map<string, string>, errs: int)
    ensures var job := Job(env, config, url, year, done, store, errs);
      job.errs == errs + FailCount(job.trace)
      && (SnapshotsOf(env, url, year).Err? ==>
            job.result == Some(SnapshotsOf(env, url, year).error) && job.store == store && job.trace == [])
  {
    var listing := SnapshotsOf(env, url, year);
    if listing.Ok? {
      RunCountsFailures(LoopOf(env, config, url, listing.value, done), 0, store, errs);
    }
  }

  /** Running a job again after it completed with no failed capture downloads
      nothing and leaves the store as the first run left it. */
  lemma JobIdempotent(env: Env, config: Config, url: string, year: int, done1: nat -> bool, done2: nat -> bool,
                      store: map<string, string>, errs1: int, errs2: int)
    requires var first := Job(env, config, url, year, done1, store, errs1);
      first.result == None && FailCount(first.trace) == 0
    ensures var first := Job(env, config, url, year, done1, store, errs1);
      var second := Job(env, config, url, year, done2, first.store, errs2);
      second.store == first.store && forall k :: 0 <= k < |second.trace| ==> !second.trace[k].fetched
  {
    var first := Job(env, config, url, year, done1, store, errs1);
    var snaps := SnapshotsOf(env, url, year).value;
    var lp1 := LoopOf(env, config, url, snaps, done1);
    assert ValidLoop(lp1);
    assert first == RunFrom(lp1, 0, store, errs1);
    CompleteRunStoresAll(lp1, store, errs1);
    RerunFetchesNothing(LoopOf(env, config, url, snaps, done2), 0, first.store, errs2);
  }

  /** A run that went through every capture without a failure has every
      listed key stored at the end. */
  lemma CompleteRunStoresAll(lp: Loop, store: map<string, string>, errs: int)
    requires ValidLoop(lp)
    requires var r := RunFrom(lp, 0, store, errs); r.result == None && FailCount(r.trace) == 0
    ensures forall j :: 0 <= j < |lp.snaps| ==> Key(lp.url, lp.snaps[j]) in RunFrom(lp, 0, store, errs).store
  {
    var r := RunFrom(lp, 0, store, errs);
    RunOutcome(lp, 0, store, errs);
    RunVisitsInOrder(lp, 0, store, errs);
    RunKeepsVisited(lp, 0, store, errs);
    forall j | 0 <= j < |lp.snaps|
      ensures Key(lp.url, lp.snaps[j]) in r.store
    {
      FailCountZero(r.trace, j);
    }
  }

  class Worker {
    const env: Env
    const config: Config
    var downloadErrs: int
    var store: map<string, string>
    /** The captures processed so far, in order: what each came to and
        whether it was downloaded. */
    ghost var log: seq<Event>

    constructor (env: Env, config: Config, store: map<string, string>)
      ensures this.env == env && this.config == config
      ensures this.store == store && downloadErrs == 0 && log == []
    {
      this.env := env;
      this.config := config;
      this.store := store;
      downloadErrs := 0;
      log := [];
    }

    /** `HandleCalculateSimHash`: a payload that does not decode is an error
        and changes nothing; otherwise the error count is reset to 0 and the
        job runs. */
    method HandleCalculateSimHash(payload: Option<Payload>, done: nat -> bool) returns (err: Option<Error>)
      modifies this
      ensures payload.None? ==>
        err == Some(PayloadInvalid) && store == old(store) && downloadErrs == old(downloadErrs) && log == old(log)
      ensures payload.Some? ==>
        var job := Job(env, config, payload.value.url, payload.value.year, done, old(store), 0);
        err == job.result && store == job.store && downloadErrs == job.errs && log == old(log) + job.trace
    {
      if payload.None? {
        return Some(PayloadInvalid);
      }
      downloadErrs := 0;
      err := ProcessURLForYear(payload.value.url, payload.value.year, done);
    }

    /** `processURLForYear`. */
    method ProcessURLForYear(url: string, year: int, done: nat -> bool) returns (err: Option<Error>)
      modifies this
      ensures var job := Job(env, config, url, year, done, old(store), old(downloadErrs));
        err == job.result && store == job.store && downloadErrs == job.errs && log == old(log) + job.trace
    {
      var snapshots := GetSnapshots(url, year);
      if snapshots.Err? {
        return Some(snapshots.error);
      }
      var snaps := snapshots.value;
      ghost var lp := LoopOf(env, config, url, snaps, done);
      LoopOfFollows(env, config, url, snaps, done);
      err := VisitSnapshots(url, snaps, done, lp);
    }

    /** The loop of `processURLForYear` over the listed captures: each one
        first checks the context, then is processed, and the budget is
        checked after it. */
    method VisitSnapshots(url: string, snaps: seq<string>, done: nat -> bool, ghost lp: Loop) returns (err: Option<Error>)
      requires Follows(lp, env, config) && lp.url == url && lp.snaps == snaps && lp.done == done
      modifies this
      ensures var run := RunFrom(lp, 0, old(store), old(downloadErrs));
        err == run.result && store == run.store && downloadErrs == run.errs && log == old(log) + run.trace
    {
      ghost var total := RunFrom(lp, 0, store, downloadErrs);
      ghost var taken: seq<Event> := [];
      var i := 0;
      while i < |snaps|
        invariant 0 <= i <= |snaps|
        invariant Remains(total, taken, RunFrom(lp, i, store, downloadErrs))
        invariant log == old(log) + taken
      {
        if done(i) {
          return Some(ContextDone);
        }
        RemainsStep(lp, i, store, downloadErrs, total, taken);
        taken := taken + [EventAt(lp, i, store)];
        var stop := VisitSnapshot(url, snaps[i], lp, i);
        if stop {
          return Some(MaxErrorsReached(config.maxErrors));
        }
        i := i + 1;
      }
      return None;
    }

    /** One turn of the loop of `processURLForYear`: process the capture
        and count a failure; `stop` says the error budget is spent. */
    method VisitSnapshot(url: string, timestamp: string, ghost lp: Loop, ghost i: nat) returns (stop: bool)
      requires Follows(lp, env, config) && lp.url == url && i < |lp.snaps| && lp.snaps[i] == timestamp
      modifies this
      ensures store == AfterStep(old(store), Key(url, timestamp), StepAt(lp, i, old(store)))
      ensures downloadErrs == ErrsAfter(lp, i, old(store), old(downloadErrs))
      ensures stop == Exhausts(lp, i, old(store), old(downloadErrs))
      ensures log == old(log) + [EventAt(lp, i, old(store))]
    {
      var e := ProcessSnapshot(url, timestamp);
      stop := false;
      if e.Some? {
        IncrementErrors();
        var count := GetErrorCount();
        stop := count >= config.maxErrors;
      }
    }

    /** `processSnapshot`: skip a stored capture, otherwise download,
        fingerprint and store it. The log records what the capture came to
        and whether `downloadSnapshot` was called. */
    method ProcessSnapshot(url: string, timestamp: string) returns (err: Option<Error>)
      modifies this`store, this`log
      ensures var step := SnapshotStep(env, config.size, old(store), url, timestamp);
        err == ErrorOf(step) && store == AfterStep(old(store), Key(url, timestamp), step)
        && log == old(log) + [Event(timestamp, step, Fetches(env.existsFails, old(store), Key(url, timestamp)))]
    {
      var key := Key(url, timestamp);
      if key in env.existsFails {
        log := log + [Event(timestamp, Failed(StoreFailed), false)];
        return Some(StoreFailed);
      }
      if key in store {
        log := log + [Event(timestamp, Skipped, false)];
        return None;
      }
      var content := DownloadSnapshot(url, timestamp);
      if content.Err? {
        log := log + [Event(timestamp, Failed(content.error), true)];
        return Some(content.error);
      }
      var features := SimHash.ExtractHTMLFeatures(content.value, env.parse, env.unicode);
      if |features| == 0 {
        log := log + [Event(timestamp, Failed(NoFeatures), true)];
        return Some(NoFeatures);
      }
      var hash := SimHash.CalculateSimHash(features, config.size, env.blake2b);
      var encoded := SimHash.EncodeSimHash(hash);
      if key in env.setFails {
        log := log + [Event(timestamp, Failed(StoreFailed), true)];
        return Some(StoreFailed);
      }
      store := store[key := encoded];
      log := log + [Event(timestamp, Stored(encoded), true)];
      return None;
    }

    /** `downloadSnapshot`: the status and the content type are checked
        before the body is read. */
    method DownloadSnapshot(url: string, timestamp: string) returns (r: Result<seq<byte>, Error>)
      ensures r == Downloaded(env, url, timestamp)
    {
      var resp := env.replay(url, timestamp);
      if resp.TransportError? {
        return Err(TransportFailed);
      }
      if resp.status != StatusOK {
        return Err(UnexpectedStatus(resp.status));
      }
      var contentType := resp.contentType;
      if !IsHTMLContent(env.unicode, contentType) {
        return Err(NotHTML(contentType));
      }
      if resp.body.None? {
        return Err(BodyUnreadable);
      }
      return Ok(resp.body.value);
    }

    /** `getSnapshots`. */
    method GetSnapshots(url: string, year: int) returns (r: Result<seq<string>, Error>)
      ensures r == SnapshotsOf(env, url, year)
    {
      var reply := env.cdx(url, year);
      if reply.IndexFailure? {
        return Err(IndexFailed);
      }
      var results := reply.rows;
      if |results| < 2 {
        return Err(NoSnapshots);
      }
      var timestamps: seq<string> := [];
      var i := 1;
      while i < |results|
        invariant 1 <= i <= |results|
        invariant timestamps == ColumnOne(results[1..i])
      {
        var row := results[i];
        assert results[1..i + 1][..i - 1] == results[1..i];
        if |row| > 1 {
          timestamps := timestamps + [row[1]];
        }
        i := i + 1;
      }
      assert results[1..i] == results[1..];
      return Ok(timestamps);
    }

    /** `incrementErrors`. */
    method IncrementErrors()
      modifies this`downloadErrs
      ensures downloadErrs == old(downloadErrs) + 1
    {
      downloadErrs := downloadErrs + 1;
    }

    /** `getErrorCount`. */
    method GetErrorCount() returns (count: int)
      ensures count == downloadErrs
    {
      return downloadErrs;
    }
  }
}
