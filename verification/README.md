# Hue Ready Lamp: session arbitration model

A Dafny model of the arbitration engine of `hue_control.py`, the status-light controller of Hue Ready Lamp.
Several independent callers, called sessions, each record the lamp state they want: thinking, attention, permission, error, success, session or off.
A fixed priority table picks the one state the light shows.
Stale or unreadable records are reclaimed.
A success is shown for a few seconds and then demoted to the quiet "session" colour.

Modules, one per component:

- `Wrappers`: `Option` and `Result`.
- `Catalog`: the `STATES` payload table and the `STATE_PRIORITY` table, the two time constants, and the unknown-name check of `set_light_state`.
- `Sessions`: the sessions directory as a `map<SessionId, Entry>`.
  An `Entry` is the parsed content of one `<id>.json` file.
  It is `Ok(state, timestamp)` with either field possibly absent, `Corrupt` when reading fails with an OS error or the text is not valid JSON, `NonObject` when it is valid JSON but not an object, or `Undecodable` when its bytes do not decode as text.
  A directory that does not exist behaves as the empty map.
  Both loops over the directory skip files without a ".json" suffix.
  Of the files `<id>.json` the controller writes, only the one for the empty id, `.json`, has no suffix, so that record is never collected and never resolved (`Listed`).
  This module also holds registration, unregistration and garbage collection, both as a map filter (`Cleanup`) and as the source's loop over a directory listing (`Sweep`).
- `Resolver`: the max-by-priority fold of `resolve_winning_state` (`Scan`).
  Its declarative partner is `IsWinner`: the winner is off or a claimed state, and no claim outranks it.
  The two are tied together by order-independence and uniqueness lemmas.
- `Controller`: one invocation of `main`.
  It has a legacy mode (no session id) and a session-aware mode.
  Its output is the new registry and the sequence of state names sent to the light.

The order in which the directory is listed is unspecified.
`Resolve` runs the fold over an arbitrary listing (`SomeListing`), and `ResolveOrderIndependent` proves that every listing gives the same answer.
This is why `Resolve` and the controller are ghost functions.
Clock readings are parameters (`Clock`): the garbage-collection instant, the first write, and the write after the success sleep.
The sleep itself is only the boundary between the two commands of the success path.
Timestamps are integers.

In session-aware mode the success path calls `set_light_state` twice (hue_control.py:201 and :205): once with the winner right after the success write, and once with the winner after the sleep and the "session" write.
Every other session-aware path sends one command.

The cleanup handler's comment "Corrupted file — remove it" (hue_control.py:133) states the intent to delete any corrupted record.
Records that are valid JSON but not objects, and records whose bytes do not decode, raise exceptions the handler does not catch (see Findings).
The model keeps the cleanup loop as written beside the corrected loop, and the controller uses the corrected one.

## Model

| member | source | states |
|---|---|---|
| Catalog.PriorityDefault | hue_control.py:153-154 | `Priority` (`STATE_PRIORITY.get(state, 0)`) returns the table's entry for a known state and is 0 exactly for "off" and for names the table does not know |
| Catalog.TablesAgree | hue_control.py:15-66 | The payload table and the priority table have the same key set, priorities are pairwise distinct, and "off" alone has the lowest priority, 0 |
| Catalog.CommandsWellFormed | hue_control.py:15-55 | Only "off" turns the light off; every "on" payload has a brightness within 0..254 and an "off" payload has none |
| Catalog.CommandFor | hue_control.py:83-94 | `set_light_state` accepts exactly the names the priority table ranks (the same names as the payload table), and the payload it sends turns the light off only for "off" |
| Sessions.Register | hue_control.py:103-108 | The session's record becomes its new state and the current time; the key set gains only that id and every other record is unchanged |
| Sessions.Unregister | hue_control.py:111-117 | Only the session's own key is removed; every other record is unchanged |
| Sessions.UnregisterIdempotent | hue_control.py:111-117 | Removing twice is removing once, and removing an absent id is a no-op, as the swallowed `FileNotFoundError` makes it |
| Sessions.UnregisterUndoesRegister | hue_control.py:103-117 | Unregistering after a registration leaves what unregistering alone leaves, so a session that never existed leaves no trace |
| Sessions.RewriteOwnRecord | hue_control.py:199-203 | Writing a session's record twice and putting the first record back gives the first write; unregistering undoes a write |
| Sessions.Cleanup | hue_control.py:120-137 | A listed record survives garbage collection iff it is readable and `now - timestamp <= 3600`, with a missing timestamp read as 0; unreadable records are removed, the unlisted `.json` file always survives, and survivors are unchanged |
| Sessions.CleanupIdempotent | hue_control.py:120-137 | A second collection at the same instant removes nothing more |
| Sessions.CleanupMonotone | hue_control.py:124-131 | A later collection keeps no record an earlier one removed |
| Sessions.RegisteredRecordSurvives | hue_control.py:103-131 | A record written at t survives every collection up to 3600 seconds later |
| Sessions.Sweep | hue_control.py:125-137 | The cleanup loop over a listing only deletes: it keeps every record it does not visit, and keeps a visited record iff it is readable and fresh |
| Sessions.SweepIsCleanup | hue_control.py:120-137 | Whatever order the directory is listed in, the cleanup loop leaves exactly `Cleanup` |
| Sessions.SweepAsWritten | hue_control.py:125-137 | The loop as written completes iff no visited record is non-object or undecodable; when it fails, such a record is still in the directory |
| Sessions.SweepAsWrittenAgrees | hue_control.py:125-137 | On a directory without such records the loop as written completes and agrees with the corrected loop |
| Sessions.SweepAsWrittenFails | hue_control.py:128-132 | One non-object or undecodable record anywhere in the listing makes the loop as written fail |
| Sessions.UncaughtRecordCrashesSweep | hue_control.py:128-137 | The concrete inputs `a.json` holding `[]` and `a.json` holding undecodable bytes: the loop as written fails with the file still present, while the corrected loop deletes it |
| Resolver.WinnerUnique | hue_control.py:145-157 | Because priorities are distinct, a set of claimed states has at most one winner |
| Resolver.Scan | hue_control.py:145-159 | The fold never lowers the best priority and replaces the best only on a strictly greater priority; its result outranks or ties every readable record and is the first record to reach that priority; unreadable records are skipped |
| Resolver.ResolveEntries | hue_control.py:140-161 | Over any listing the resolved state is in the priority table, is "off" or a claimed state, outranks or ties every readable record, and is "off" for an empty listing |
| Resolver.ClaimsOfListing | hue_control.py:148-153 | A listing of the directory's ".json" files sees exactly the states the registry's listed readable records claim |
| Resolver.Resolve | hue_control.py:140-161 | The winner of a registry is the highest-priority claimed state, or "off"; it is always a state the catalog can send |
| Resolver.ResolveOrderIndependent | hue_control.py:148-161 | Every directory listing order resolves to the same state |
| Resolver.ResolveEmpty | hue_control.py:142-146 | An empty or missing sessions directory resolves to "off" |
| Resolver.UnknownStatesNeverWin | hue_control.py:153-157 | Records claiming only unknown states (priority 0) or "off" resolve to "off": an unknown state never beats "off" |
| Resolver.ResolveByClaims | hue_control.py:151-157 | Resolution depends only on the set of claimed states, not on ids, timestamps or unreadable records |
| Resolver.ClaimsAfterRegister | hue_control.py:103-108 | Registering replaces the session's own claim by the new state (no claim for the empty id) and leaves every other claim |
| Resolver.RegisterTwiceResolvesAsOnce | hue_control.py:103-108 | Registering the same state twice resolves the same as registering it once |
| Resolver.RegisteredStateNotOutranked | hue_control.py:153-157 | Right after a listed session registers a state, the winner's priority is at least that state's; a write for the empty id changes no resolution |
| Resolver.ResolveAfterCleanup | hue_control.py:128-157 | After garbage collection only fresh, listed, readable records are claimed, so the winner is "off" or the state of such a record |
| Controller.Legacy | hue_control.py:180-186 | Legacy mode sends the requested state, followed by "off" exactly when the state is success |
| Controller.EndSession | hue_control.py:191-195 | "off" removes the caller's record, touches no other record, and sends the single winner of what remains |
| Controller.ShowSuccess | hue_control.py:197-205 | Success sends two commands: the winner with the caller at "success", then the winner with the caller demoted to "session". The caller's record is left as "session", never absent. For a listed caller the first command ranks at least success and the second at least session |
| Controller.ShowState | hue_control.py:207-211 | Any other state is recorded for the caller and sends one command, the winner, which for a listed caller ranks at least that state |
| Controller.Transition | hue_control.py:191-211 | After collection, no other session's record changes. The last command always equals the winner of the registry left behind, and every command is a catalog state. For the empty id every command is the winner of the other sessions alone |
| Controller.SessionAware | hue_control.py:188-211 | Garbage collection runs first: other records survive iff they are unlisted or fresh, and are unchanged; the rest is `Transition` on the collected registry |
| Controller.Invoke | hue_control.py:164-211 | A missing state is a usage error and an unknown one is rejected before any command or registry change. Without a session id the registry is untouched. With one, the first argument is the state and the second the session id of session-aware mode. Every command sent passes the unknown-state check of `set_light_state` |
| Controller.SuccessAloneDemotesToSession | hue_control.py:197-205 | For a listed caller with no other live session, success sends exactly success then session, not off |
| Controller.LastSessionOffGoesDark | hue_control.py:191-195 | When every other record is listed and stale, ending the session empties the registry and the single command is "off" |
| Controller.ScenarioStepB | hue_control.py:207-211 | While A holds attention, B registering thinking still shows attention |
| Controller.ScenarioEndA | hue_control.py:191-195 | When A ends, B's thinking is shown |
| Controller.TwoSessionScenario | hue_control.py:188-211 | A attention then B thinking shows attention; A ends and thinking shows; B ends and the light is off |
| Controller.CorruptAndStaleRecordsScenario | hue_control.py:120-137 | An unreadable record and a record older than 3600 seconds are removed by the next session-aware invocation, which shows its own state |
| Controller.LegacySuccessIgnoresRegistry | hue_control.py:180-186 | Legacy success sends success then off and leaves the registry as it was |
| Controller.EmptySessionIdIsNeverShown | hue_control.py:106-157 | `thinking ""` on an empty directory writes `.json` but sends "off", because neither loop lists that file |

## Left out

- `load_config` and the configuration file: neither configuration failure below is modelled, so `Controller.Invoke` always proceeds past them.
  A missing configuration file exits at hue_control.py:76-78, after state validation and before the garbage collection at :189, so in the source the registry stays unchanged.
  A configuration lacking `bridge_ip`, `username` or `light_id` raises `KeyError` at :89-91 inside the first `set_light_state`.
  That happens after the registry write at :193, :199 or :209 and before any command is sent.
- The HTTP `PUT` of `set_light_state`, and its failure exit.
  A command is the state name; `Catalog.CommandFor` keeps only the unknown-name check and the payload lookup.
- The CIE xy colour coordinates of the payloads, which are floating point.
- stderr messages, `sys.exit` codes and the "Valid states" list.
  Every failure is an `Error` value that stands for exit status 1.
- JSON encoding and decoding, and the `.json` suffix filter on directory entries.
  Each session file is abstracted to an `Entry`, and only session files are in the map.
- Session ids that are not valid file names, for example ids containing `/`.
- Sessions.Register: ids that the file system treats as one name share one file, and so one record.
  Examples are ids differing only in case on a case-insensitive volume, or only in Unicode normalisation.
  The model assumes distinct ids name distinct files; on such a file system `permission a` followed by `session A` overwrites `a.json` and shows "session", while the model keeps two records and resolves "permission".
- Float timestamps and wall-clock time: timestamps are integers and the clock readings are free parameters.
  The sleep is not constrained to last `SuccessDuration` seconds.
- Concurrent invocations racing on the directory: the model is one sequential invocation.
  In particular, another session changing its record during the success sleep is not modelled.
- Sessions.Unregister: `unregister_session` catches only `FileNotFoundError` (hue_control.py:114-117); any other `OSError` from the `unlink` at :115, such as a `PermissionError` or an `IsADirectoryError`, escapes `main` after garbage collection and before any command is sent, so that invocation ends with no light change. The model's `Unregister` and `Controller.EndSession` always remove the record and send a command, because file-system permissions are outside the model.
- Sessions.Cleanup: when the `unlink` at :131 of a stale, readable record fails, the `OSError` is caught at :132 and the retry at :135 fails silently. The stale record then stays in the directory and can still win `resolve_winning_state`. The same holds for an unreadable record whose `unlink` fails. The model assumes every deletion succeeds, so `Cleanup` and `Sweep` always drop the records they select.
- Sessions.Register: the `OSError` that `mkdir` or `write_text` can raise (hue_control.py:105, 108) ends the invocation in the source; the model's writes always succeed.
- Resolver.Scan: a non-object or undecodable record is skipped like an unreadable one.
  The source raises `AttributeError` or `UnicodeDecodeError` there, and `{"state": [..]}` would raise `TypeError`.
  In session-aware mode the corrected garbage collection always removes such records before resolution runs.
- Sessions.Entry: a `timestamp` or `state` of another JSON type (null, string) is not modelled.
  In the source such a timestamp raises `TypeError` in the cleanup loop.
- Sessions.SweepAsWritten: only the cleanup loop is modelled as written; the controller uses the corrected `Cleanup`.

## Findings

| source | as written | input that shows it | evidently intended | confidence | as-written member | corrected member |
|---|---|---|---|---|---|---|
| hue_control.py:128-137 | The cleanup loop catches only `JSONDecodeError` and `OSError`. A session file holding valid JSON that is not an object makes `data.get` raise `AttributeError`. A file whose bytes do not decode in the locale encoding makes `read_text` raise `UnicodeDecodeError`. Either exception escapes, so the invocation fails and the file stays. Every later session-aware invocation fails the same way, so the light stops following sessions. | a sessions directory with `a.json` containing `[]` (or the single byte 0xFF under UTF-8), then `hue_control.py thinking s1` | A corrupted record is removed, as the handler's comment says, and the invocation goes on | medium (not executed) | Sessions.SweepAsWritten, shown by Sessions.SweepAsWrittenFails and Sessions.UncaughtRecordCrashesSweep | Sessions.Sweep and Sessions.Cleanup, proved equal by Sessions.SweepIsCleanup; the controller uses Sessions.Cleanup |
