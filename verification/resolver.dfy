/**
 * The resolver: which single state the light shows, given every session's
 * record. The source folds over the directory listing, keeping the first
 * record whose priority is strictly greater than the best so far, starting
 * from "off".
 */
module Resolver {
  import opened Wrappers
  import opened Catalog
  import opened Sessions

  /** The states claimed by the listed, readable records of a registry. */
  function Claims(reg: Registry): set<StateName> {
    set id | id in reg && Listed(id) && reg[id].Ok? :: StateOf(reg[id])
  }

  /** The states claimed by the readable records of a listing. */
  function ClaimsOf(entries: seq<Entry>): set<StateName> {
    set i | 0 <= i < |entries| && entries[i].Ok? :: StateOf(entries[i])
  }

  /**
   * `r` is the state to show for `claims`: a state of the priority table,
   * either "off" or one of the claims, and outranked by none of them.
   */
  predicate IsWinner(claims: set<StateName>, r: StateName) {
    && r in PriorityTable
    && (r == "off" || r in claims)
    && forall s :: s in claims ==> Priority(s) <= Priority(r)
  }

  /** Because priorities are distinct, every set of claims has at most one winner. */
  lemma WinnerUnique(claims: set<StateName>, r1: StateName, r2: StateName)
    requires IsWinner(claims, r1) && IsWinner(claims, r2)
    ensures r1 == r2
  {
    TablesAgree();
  }

  /** Record `i` claims `r`, and no readable record before it reaches the priority of `r`. */
  ghost predicate FirstAt(entries: seq<Entry>, i: int, r: StateName) {
    && 0 <= i < |entries| && entries[i].Ok? && StateOf(entries[i]) == r
    && forall j :: 0 <= j < i && entries[j].Ok? ==> Priority(StateOf(entries[j])) < Priority(r)
  }

  /** Some record is the first in `entries` to claim `r` at its priority. */
  ghost predicate FirstToReach(entries: seq<Entry>, r: StateName) {
    exists i :: FirstAt(entries, i, r)
  }

  /**
   * The loop of `resolve_winning_state` from the accumulator `best` on.
   * Unreadable records are skipped, and a record replaces the best so far
   * only when its priority is strictly greater: so the result is the first
   * record of maximal priority, and a state outside the table (priority 0)
   * never displaces "off".
   */
  function Scan(entries: seq<Entry>, best: StateName): (r: StateName)
    ensures Priority(best) <= Priority(r)
    ensures r != best ==> Priority(best) < Priority(r)
    ensures r == best || r in ClaimsOf(entries)
    ensures forall s :: s in ClaimsOf(entries) ==> Priority(s) <= Priority(r)
    ensures r != best ==> FirstToReach(entries, r)
    decreases |entries|
  {
    if |entries| == 0 then best
    else
      var e := entries[0];
      assert ClaimsOf(entries) == (if e.Ok? then {StateOf(e)} else {}) + ClaimsOf(entries[1..]) by {
        forall s | s in ClaimsOf(entries)
          ensures s in (if e.Ok? then {StateOf(e)} else {}) + ClaimsOf(entries[1..])
        {
          var i :| 0 <= i < |entries| && entries[i].Ok? && StateOf(entries[i]) == s;
          if i > 0 { assert entries[1..][i - 1] == entries[i]; }
        }
        forall s | s in ClaimsOf(entries[1..]) ensures s in ClaimsOf(entries) {
          var i :| 0 <= i < |entries[1..]| && entries[1..][i].Ok? && StateOf(entries[1..][i]) == s;
          assert entries[i + 1] == entries[1..][i];
        }
      }
      var next := if e.Ok? && Priority(StateOf(e)) > Priority(best) then StateOf(e) else best;
      var r := Scan(entries[1..], next);
      assert r != best ==> FirstToReach(entries, r) by {
        if r != best {
          if r == next {
            assert FirstAt(entries, 0, r);
          } else {
            var i :| FirstAt(entries[1..], i, r);
            assert forall j :: 1 <= j <= i ==> entries[j] == entries[1..][j - 1];
            assert FirstAt(entries, i + 1, r);
          }
        }
      }
      r
  }

  /** `resolve_winning_state` over one listing of the directory. */
  function ResolveEntries(entries: seq<Entry>): (r: StateName)
    ensures IsWinner(ClaimsOf(entries), r)
    ensures |entries| == 0 ==> r == "off"
  {
    TablesAgree();
    Scan(entries, "off")
  }

  /** The records of `reg` in the order `order` lists their ids. */
  function EntriesAt(reg: Registry, order: seq<SessionId>): (entries: seq<Entry>)
    requires forall i :: 0 <= i < |order| ==> order[i] in reg
    ensures |entries| == |order|
    ensures forall i :: 0 <= i < |order| ==> entries[i] == reg[order[i]]
  {
    seq(|order|, i requires 0 <= i < |order| => reg[order[i]])
  }

  /** A listing that covers the registry carries exactly the registry's claims. */
  lemma ClaimsOfListing(reg: Registry, order: seq<SessionId>)
    requires Covers(reg.Keys, order)
    ensures ClaimsOf(EntriesAt(reg, order)) == Claims(reg)
  {
    var entries := EntriesAt(reg, order);
    forall s | s in Claims(reg) ensures s in ClaimsOf(entries) {
      var id :| id in reg && Listed(id) && reg[id].Ok? && StateOf(reg[id]) == s;
      var i :| 0 <= i < |order| && order[i] == id;
      assert entries[i] == reg[id];
    }
  }

  /**
   * The winning state of a registry: the loop run over the listing the
   * directory happens to yield. By `ResolveOrderIndependent` the listing
   * does not matter.
   */
  ghost function Resolve(reg: Registry): (r: StateName)
    ensures IsWinner(Claims(reg), r)
    ensures r in States
  {
    TablesAgree();
    var order := SomeListing(reg.Keys);
    ClaimsOfListing(reg, order);
    ResolveEntries(EntriesAt(reg, order))
  }

  /** Every listing of the directory resolves to the same state. */
  lemma ResolveOrderIndependent(reg: Registry, order: seq<SessionId>)
    requires Covers(reg.Keys, order)
    ensures ResolveEntries(EntriesAt(reg, order)) == Resolve(reg)
  {
    ClaimsOfListing(reg, order);
    WinnerUnique(Claims(reg), ResolveEntries(EntriesAt(reg, order)), Resolve(reg));
  }

  /** Any winner of the registry's claims is what `Resolve` returns. */
  lemma ResolveIs(reg: Registry, w: StateName)
    requires IsWinner(Claims(reg), w)
    ensures Resolve(reg) == w
  {
    WinnerUnique(Claims(reg), w, Resolve(reg));
  }

  /** With no session registered (or no sessions directory) the light is off. */
  lemma ResolveEmpty()
    ensures Resolve(map[]) == "off"
  {
    TablesAgree();
    ResolveIs(map[], "off");
  }

  /** A registry whose readable records claim only unknown states or "off" resolves to "off". */
  lemma UnknownStatesNeverWin(reg: Registry)
    requires forall s :: s in Claims(reg) ==> s !in PriorityTable || s == "off"
    ensures Resolve(reg) == "off"
  {
    TablesAgree();
    ResolveIs(reg, "off");
  }

  /** Only the claimed states matter: not the ids, timestamps or unreadable records. */
  lemma ResolveByClaims(reg1: Registry, reg2: Registry)
    requires Claims(reg1) == Claims(reg2)
    ensures Resolve(reg1) == Resolve(reg2)
  {
    WinnerUnique(Claims(reg1), Resolve(reg1), Resolve(reg2));
  }

  /**
   * Registering replaces the session's own claim by the new state; the
   * record of the unlisted empty id claims nothing.
   */
  lemma ClaimsAfterRegister(reg: Registry, id: SessionId, state: StateName, now: int)
    ensures Claims(Register(reg, id, state, now)) == Claims(Unregister(reg, id)) + (if Listed(id) then {state} else {})
  {
    var after := Register(reg, id, state, now);
    if Listed(id) {
      assert state in Claims(after) by { assert after[id].Ok? && StateOf(after[id]) == state; }
    }
    forall s | s in Claims(Unregister(reg, id)) ensures s in Claims(after) {
      var k :| k in Unregister(reg, id) && Listed(k) && Unregister(reg, id)[k].Ok? && StateOf(Unregister(reg, id)[k]) == s;
      assert after[k] == reg[k];
    }
  }

  /** Registering the same state again resolves as registering it once. */
  lemma RegisterTwiceResolvesAsOnce(reg: Registry, id: SessionId, state: StateName, t1: int, t2: int)
    ensures Resolve(Register(Register(reg, id, state, t1), id, state, t2)) == Resolve(Register(reg, id, state, t1))
  {
    var once := Register(reg, id, state, t1);
    ClaimsAfterRegister(once, id, state, t2);
    ClaimsAfterRegister(reg, id, state, t1);
    assert Unregister(once, id) == Unregister(reg, id);
    ResolveByClaims(Register(once, id, state, t2), once);
  }

  /**
   * A listed session's own state is never hidden by a lower-priority one;
   * the record of the empty id changes nothing.
   */
  lemma RegisteredStateNotOutranked(reg: Registry, id: SessionId, state: StateName, now: int)
    ensures Listed(id) ==> Priority(state) <= Priority(Resolve(Register(reg, id, state, now)))
    ensures !Listed(id) ==> Resolve(Register(reg, id, state, now)) == Resolve(Unregister(reg, id))
  {
    ClaimsAfterRegister(reg, id, state, now);
    if !Listed(id) {
      ResolveByClaims(Register(reg, id, state, now), Unregister(reg, id));
    }
  }

  /**
   * After garbage collection at `now`, only fresh records take part in
   * resolution: stale and unreadable ones can neither win nor outrank.
   */
  lemma ResolveAfterCleanup(reg: Registry, now: int)
    ensures Claims(Cleanup(reg, now)) == set id | id in reg && Listed(id) && Fresh(reg[id], now) :: StateOf(reg[id])
    ensures var r := Resolve(Cleanup(reg, now));
            r == "off" || exists id :: id in reg && Listed(id) && Fresh(reg[id], now) && StateOf(reg[id]) == r
  {
    var live := Cleanup(reg, now);
    forall s | s in (set id | id in reg && Listed(id) && Fresh(reg[id], now) :: StateOf(reg[id])) ensures s in Claims(live) {
      var id :| id in reg && Listed(id) && Fresh(reg[id], now) && StateOf(reg[id]) == s;
      assert id in live;
    }
  }
}
