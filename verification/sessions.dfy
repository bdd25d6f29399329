/**
 * The session registry: one record per session id, kept as a file
 * `<id>.json` in the sessions directory. The directory is modelled as a
 * finite map from session id to the parsed content of its file; a directory
 * that does not exist behaves exactly like an empty map.
 */
module Sessions {
  import opened Wrappers
  import opened Catalog

  type SessionId = string

  /**
   * The content of one session file.
   * - `Ok`: a JSON object; `state` and `timestamp` are absent when the keys are.
   * - `Corrupt`: reading the file fails with an OS error, or its text is not valid JSON.
   * - `NonObject`: valid JSON that is not an object (a list, a number, ...).
   * - `Undecodable`: bytes that the locale text encoding cannot decode.
   */
  datatype Entry =
    | Ok(state: Option<StateName>, timestamp: Option<int>)
    | Corrupt
    | NonObject
    | Undecodable

  /**
   * A record on which the source's loops raise an exception that their
   * handlers (`JSONDecodeError`, `OSError`) do not catch: `AttributeError`
   * from `.get` on a non-object, `UnicodeDecodeError` from `read_text`.
   */
  predicate Uncaught(e: Entry) {
    e.NonObject? || e.Undecodable?
  }

  type Registry = map<SessionId, Entry>

  /**
   * Whether the loops over the directory see the file of `id`. Both skip a
   * file whose suffix is not ".json"; the file `<id>.json` has that suffix
   * for every id except the empty one, whose file `.json` has no suffix.
   * An unlisted record is never collected and never resolved.
   */
  predicate Listed(id: SessionId) {
    id != ""
  }

  /** `data.get("state", "off")` */
  function StateOf(e: Entry): StateName
    requires e.Ok?
  {
    e.state.GetOr("off")
  }

  /** `data.get("timestamp", 0)` */
  function TimestampOf(e: Entry): int
    requires e.Ok?
  {
    e.timestamp.GetOr(0)
  }

  /** A record that garbage collection at time `now` keeps. */
  predicate Fresh(e: Entry, now: int) {
    e.Ok? && now - TimestampOf(e) <= StaleThreshold
  }

  /** The record `register_session_state` writes. */
  function Record(state: StateName, now: int): (e: Entry)
    ensures e.Ok? && StateOf(e) == state && TimestampOf(e) == now
  {
    Ok(Some(state), Some(now))
  }

  /** Creates or overwrites the record of `id`; no other record changes. */
  function Register(reg: Registry, id: SessionId, state: StateName, now: int): (r: Registry)
    ensures r.Keys == reg.Keys + {id}
    ensures id in r && r[id].Ok? && StateOf(r[id]) == state && TimestampOf(r[id]) == now
    ensures forall k :: k in reg && k != id ==> r[k] == reg[k]
  {
    reg[id := Record(state, now)]
  }

  /** Deletes the record of `id` if there is one; no other record changes. */
  function Unregister(reg: Registry, id: SessionId): (r: Registry)
    ensures r.Keys == reg.Keys - {id}
    ensures forall k :: k in r ==> r[k] == reg[k]
  {
    reg - {id}
  }

  /** Deleting twice is deleting once, and deleting an absent record changes nothing. */
  lemma UnregisterIdempotent(reg: Registry, id: SessionId)
    ensures Unregister(Unregister(reg, id), id) == Unregister(reg, id)
    ensures id !in reg ==> Unregister(reg, id) == reg
  {
  }

  /** Unregistering undoes any registration of the same id. */
  lemma UnregisterUndoesRegister(reg: Registry, id: SessionId, state: StateName, now: int)
    ensures Unregister(Register(reg, id, state, now), id) == Unregister(reg, id)
    ensures id !in reg ==> Unregister(Register(reg, id, state, now), id) == reg
  {
  }

  /**
   * Rewriting a session's record: the first write is recovered by putting
   * its record back, and either write is undone by unregistering.
   */
  lemma RewriteOwnRecord(reg: Registry, id: SessionId, s1: StateName, t1: int, s2: StateName, t2: int)
    ensures Register(Register(reg, id, s1, t1), id, s2, t2)[id := Record(s1, t1)] == Register(reg, id, s1, t1)
    ensures Unregister(Register(reg, id, s1, t1), id) == Unregister(reg, id)
  {
  }

  /**
   * Garbage collection at time `now`: a listed record survives exactly when
   * it is a readable object whose age is at most the threshold; an unlisted
   * one always survives; survivors are unchanged.
   */
  function Cleanup(reg: Registry, now: int): (r: Registry)
    ensures forall id :: id in r <==>
              id in reg && (!Listed(id) || (reg[id].Ok? && now - TimestampOf(reg[id]) <= StaleThreshold))
    ensures forall id :: id in r ==> r[id] == reg[id]
  {
    map id | id in reg && (!Listed(id) || Fresh(reg[id], now)) :: reg[id]
  }

  /** A second collection at the same instant removes nothing more. */
  lemma CleanupIdempotent(reg: Registry, now: int)
    ensures Cleanup(Cleanup(reg, now), now) == Cleanup(reg, now)
  {
  }

  /** A later collection never keeps a record an earlier one removed. */
  lemma CleanupMonotone(reg: Registry, earlier: int, later: int)
    requires earlier <= later
    ensures Cleanup(reg, later).Keys <= Cleanup(reg, earlier).Keys
  {
  }

  /** A record written at `now` survives every collection up to the threshold later. */
  lemma RegisteredRecordSurvives(reg: Registry, id: SessionId, state: StateName, now: int, later: int)
    requires later - now <= StaleThreshold
    ensures id in Cleanup(Register(reg, id, state, now), later)
  {
  }

  /** `order` lists exactly the listed keys of `keys`, as the loops over the directory visit them. */
  ghost predicate Covers(keys: set<SessionId>, order: seq<SessionId>) {
    forall k :: k in order <==> k in keys && Listed(k)
  }

  /** Some listing of a set of keys: the order the directory happens to yield. */
  ghost function SomeListing(keys: set<SessionId>): (order: seq<SessionId>)
    ensures Covers(keys, order)
    decreases keys
  {
    if keys == {} then []
    else
      var k :| k in keys;
      (if Listed(k) then [k] else []) + SomeListing(keys - {k})
  }

  /** Whether the cleanup loop deletes the file of `id` (readable and stale, or unreadable). */
  predicate Doomed(reg: Registry, id: SessionId, now: int) {
    id in reg && !Fresh(reg[id], now)
  }

  /**
   * The cleanup loop of the source: visit the files in `pending` order and
   * delete each that is stale or unreadable.
   */
  function Sweep(reg: Registry, pending: seq<SessionId>, now: int): (r: Registry)
    ensures forall id :: id in r ==> id in reg && r[id] == reg[id]
    ensures forall id :: id in reg && id !in pending ==> id in r
    ensures forall id :: id in reg && id in pending ==> (id in r <==> Fresh(reg[id], now))
    decreases |pending|
  {
    if |pending| == 0 then reg
    else
      var id := pending[0];
      Sweep(if Doomed(reg, id, now) then reg - {id} else reg, pending[1..], now)
  }

  /** Whatever order the directory is listed in, the loop computes `Cleanup`. */
  lemma SweepIsCleanup(reg: Registry, order: seq<SessionId>, now: int)
    requires Covers(reg.Keys, order)
    ensures Sweep(reg, order, now) == Cleanup(reg, now)
  {
  }

  /**
   * The cleanup loop as written: only JSON decoding and OS errors are
   * caught, so an uncaught record raises and ends the invocation, leaving
   * the deletions already made (the `Failure` payload).
   */
  function SweepAsWritten(reg: Registry, pending: seq<SessionId>, now: int): (r: Result<Registry, Registry>)
    ensures r.Success? <==> forall id :: id in reg && id in pending ==> !Uncaught(reg[id])
    ensures r.Failure? ==> exists id :: id in r.error && id in pending && Uncaught(r.error[id])
    decreases |pending|
  {
    if |pending| == 0 then Success(reg)
    else
      var id := pending[0];
      if id in reg && Uncaught(reg[id]) then Failure(reg)
      else
        assert forall k :: k in pending <==> k == id || k in pending[1..];
        SweepAsWritten(if Doomed(reg, id, now) then reg - {id} else reg, pending[1..], now)
  }

  /** Without uncaught records the loop as written and the corrected loop agree. */
  lemma {:induction false} SweepAsWrittenAgrees(reg: Registry, pending: seq<SessionId>, now: int)
    requires forall id :: id in reg && id in pending ==> !Uncaught(reg[id])
    ensures SweepAsWritten(reg, pending, now) == Success(Sweep(reg, pending, now))
    decreases |pending|
  {
    if |pending| > 0 {
      var id := pending[0];
      var next := if Doomed(reg, id, now) then reg - {id} else reg;
      SweepAsWrittenAgrees(next, pending[1..], now);
    }
  }

  /** One uncaught record anywhere in the listing makes the loop as written fail. */
  lemma {:induction false} SweepAsWrittenFails(reg: Registry, pending: seq<SessionId>, now: int, bad: SessionId)
    requires bad in reg && Uncaught(reg[bad]) && bad in pending
    ensures SweepAsWritten(reg, pending, now).Failure?
    decreases |pending|
  {
    var id := pending[0];
    if id != bad && !(id in reg && Uncaught(reg[id])) {
      var next := if Doomed(reg, id, now) then reg - {id} else reg;
      SweepAsWrittenFails(next, pending[1..], now, bad);
    }
  }

  /**
   * The concrete inputs: a single file holding `[]`, or holding bytes that do
   * not decode. The loop as written fails with the file still present; the
   * corrected loop deletes it.
   */
  lemma UncaughtRecordCrashesSweep()
    ensures SweepAsWritten(map["a" := NonObject], ["a"], 0) == Failure(map["a" := NonObject])
    ensures Sweep(map["a" := NonObject], ["a"], 0) == map[]
    ensures SweepAsWritten(map["a" := Undecodable], ["a"], 0) == Failure(map["a" := Undecodable])
    ensures Sweep(map["a" := Undecodable], ["a"], 0) == map[]
  {
  }
}
