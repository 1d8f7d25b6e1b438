/**
  Patching a profile: everything is checked before anything is written, and a flag says
  whether content anyone may build from moved (apps/api/src/profile/service.ts).
*/
module ProfilePatch {
  import opened Common

  datatype Fact = Fact(
    kind: string, value: string, file: Option<string>, excerpt: Option<string>, confirmed: bool, revision: nat)

  /** The inner option of `file` and `excerpt` is the column; the outer says whether the change sets it. */
  datatype Change =
    | Upsert(id: Option<nat>, kind: string, value: string, file: Option<Option<string>>, excerpt: Option<Option<string>>,
        confirmed: bool)
    | Delete(target: nat)

  datatype Profile = Profile(
    revision: nat, confirmedRevision: Option<nat>, contact: Option<string>, locale: string,
    facts: map<nat, Fact>, nextId: nat)

  datatype Patch = Patch(expected: nat, contact: Option<string>, locale: Option<string>, changes: seq<Change>)

  /** `assertFactValue` */
  type Acceptable = (string, string) -> bool

  predicate Targets(c: Change, id: nat) {
    (c.Delete? && c.target == id) || (c.Upsert? && c.id == Some(id))
  }

  predicate ChangeIsValid(acceptable: Acceptable, facts: map<nat, Fact>, c: Change) {
    match c
    case Delete(target) => target in facts
    case Upsert(id, kind, value, _, _, _) => (id.Some? ==> id.value in facts) && acceptable(kind, value)
  }

  /** The row a change writes over what was stored when the patch began. */
  function Written(c: Change, before: Option<Fact>, next: nat): Fact
    requires c.Upsert?
  {
    Fact(c.kind, c.value,
      if c.file.Some? then c.file.value else if before.Some? then before.value.file else None,
      if c.excerpt.Some? then c.excerpt.value else if before.Some? then before.value.excerpt else None,
      c.confirmed, next)
  }

  datatype Rows = Rows(facts: map<nat, Fact>, nextId: nat)

  /** An update of a row an earlier change of the batch deleted matches nothing. */
  function AppliedOne(rows: Rows, c: Change, before: map<nat, Fact>, next: nat): Rows {
    match c
    case Delete(target) => rows.(facts := rows.facts - {target})
    case Upsert(id, _, _, _, _, _) =>
      if id.None? then Rows(rows.facts[rows.nextId := Written(c, None, next)], rows.nextId + 1)
      else if id.value in rows.facts && id.value in before then
        rows.(facts := rows.facts[id.value := Written(c, Some(before[id.value]), next)])
      else rows
  }

  function Applied(rows: Rows, changes: seq<Change>, before: map<nat, Fact>, next: nat): Rows {
    if changes == [] then rows
    else AppliedOne(Applied(rows, changes[..|changes| - 1], before, next), changes[|changes| - 1], before, next)
  }

  /** The change counts as touching confirmed content. */
  predicate Touches(c: Change, before: map<nat, Fact>) {
    match c
    case Delete(target) => target in before && before[target].confirmed
    case Upsert(id, _, _, _, _, confirmed) => confirmed || (id.Some? && id.value in before && before[id.value].confirmed)
  }

  ghost predicate Flagged(p: Profile, patch: Patch) {
    patch.contact.Some? || exists i :: 0 <= i < |patch.changes| && Touches(patch.changes[i], p.facts)
  }

  ghost predicate PatchIsValid(acceptable: Acceptable, p: Profile, patch: Patch) {
    p.revision == patch.expected
    && forall i :: 0 <= i < |patch.changes| ==> ChangeIsValid(acceptable, p.facts, patch.changes[i])
  }

  ghost function Patched(p: Profile, patch: Patch): Profile {
    var rows := Applied(Rows(p.facts, p.nextId), patch.changes, p.facts, p.revision + 1);
    Profile(p.revision + 1,
      if Flagged(p, patch) then Some(p.revision + 1) else p.confirmedRevision,
      if patch.contact.Some? then patch.contact else p.contact,
      if patch.locale.Some? then patch.locale.value else p.locale,
      rows.facts, rows.nextId)
  }

  /** An attempt that is refused leaves the profile as it was. */
  ghost function Attempted(acceptable: Acceptable, p: Profile, patch: Patch): Profile {
    if PatchIsValid(acceptable, p, patch) then Patched(p, patch) else p
  }

  class ProfileTable {
    var revision: nat
    var confirmedRevision: Option<nat>
    var contact: Option<string>
    var locale: string
    var facts: map<nat, Fact>
    var nextId: nat

    ghost function View(): Profile
      reads this
    {
      Profile(revision, confirmedRevision, contact, locale, facts, nextId)
    }

    constructor (locale: string)
      ensures View() == Profile(1, None, None, locale, map[], 0)
    {
      revision, confirmedRevision, contact, this.locale, facts, nextId := 1, None, None, locale, map[], 0;
    }

    /** Validation of every change comes before the first write. */
    method ApplyProfilePatch(acceptable: Acceptable, patch: Patch) returns (ok: bool)
      modifies this
      ensures ok <==> PatchIsValid(acceptable, old(View()), patch)
      ensures View() == Attempted(acceptable, old(View()), patch)
      ensures ok <==>
                && old(revision) == patch.expected
                && forall i :: 0 <= i < |patch.changes| ==>
                     var c := patch.changes[i];
                     if c.Delete? then c.target in old(facts)
                     else (c.id.Some? ==> c.id.value in old(facts)) && acceptable(c.kind, c.value)
      ensures !ok ==> View() == old(View())
    {
      if revision != patch.expected {
        return false;
      }
      var next := revision + 1;
      var existingById := facts;
      for i := 0 to |patch.changes|
        invariant forall k :: 0 <= k < i ==> ChangeIsValid(acceptable, facts, patch.changes[k])
        invariant View() == old(View())
      {
        if !ChangeIsValid(acceptable, existingById, patch.changes[i]) {
          return false;
        }
      }
      var confirmedChanged := patch.contact.Some?;
      ghost var was := View();
      for i := 0 to |patch.changes|
        invariant View() == was.(facts := facts, nextId := nextId)
        invariant Rows(facts, nextId) == Applied(Rows(was.facts, was.nextId), patch.changes[..i], was.facts, next)
        invariant confirmedChanged <==>
                  patch.contact.Some? || exists k :: 0 <= k < i && Touches(patch.changes[k], was.facts)
      {
        var change := patch.changes[i];
        assert patch.changes[..i + 1][..i] == patch.changes[..i];
        if change.Delete? {
          if change.target in existingById && existingById[change.target].confirmed {
            confirmedChanged := true;
          }
          facts := facts - {change.target};
        } else if change.id.None? {
          if change.confirmed {
            confirmedChanged := true;
          }
          facts, nextId := facts[nextId := Written(change, None, next)], nextId + 1;
        } else {
          var existing := existingById[change.id.value];
          if change.confirmed || existing.confirmed {
            confirmedChanged := true;
          }
          if change.id.value in facts {
            facts := facts[change.id.value := Written(change, Some(existing), next)];
          }
        }
      }
      assert patch.changes[..|patch.changes|] == patch.changes;
      revision := next;
      if confirmedChanged {
        confirmedRevision := Some(next);
      }
      if patch.contact.Some? {
        contact := patch.contact;
      }
      if patch.locale.Some? {
        locale := patch.locale.value;
      }
      ok := true;
    }
  }

  // ---------------------------------------------------------------------------
  // Confirmed content
  // ---------------------------------------------------------------------------

  /** What a fact says, whichever revision of the profile last wrote it. */
  function Words(f: Fact): Fact {
    f.(revision := 0)
  }

  function ConfirmedFacts(facts: map<nat, Fact>): map<nat, Fact> {
    map id | id in facts && facts[id].confirmed :: Words(facts[id])
  }

  /** The confirmed rows as stored, stamps and all. */
  function ConfirmedRows(facts: map<nat, Fact>): map<nat, Fact> {
    map id | id in facts && facts[id].confirmed :: facts[id]
  }

  /** What a CV or a packet may be built from; facts are told apart by their id. */
  ghost predicate SameConfirmed(a: Profile, b: Profile) {
    ConfirmedFacts(a.facts) == ConfirmedFacts(b.facts) && a.contact == b.contact
  }

  /** Ids are handed out in order, and no row is newer than the profile. */
  ghost predicate WellFormed(p: Profile) {
    forall id :: id in p.facts ==> id < p.nextId && p.facts[id].revision <= p.revision
  }

  lemma {:induction false} AppliedIsWellFormed(rows: Rows, changes: seq<Change>, before: map<nat, Fact>, next: nat)
    requires forall id :: id in rows.facts ==> id < rows.nextId && rows.facts[id].revision <= next
    ensures var after := Applied(rows, changes, before, next);
            rows.nextId <= after.nextId
            && forall id :: id in after.facts ==> id < after.nextId && after.facts[id].revision <= next
  {
    if changes != [] {
      AppliedIsWellFormed(rows, changes[..|changes| - 1], before, next);
    }
  }

  /** Changes that touch nothing confirmed leave the confirmed facts alone. */
  lemma {:induction false} UntouchedIsUnchanged(rows: Rows, changes: seq<Change>, before: map<nat, Fact>, next: nat)
    requires rows.facts == before && forall id :: id in before ==> id < rows.nextId
    requires forall i :: 0 <= i < |changes| ==> !Touches(changes[i], before)
    ensures ConfirmedRows(Applied(rows, changes, before, next).facts) == ConfirmedRows(before)
    ensures rows.nextId <= Applied(rows, changes, before, next).nextId
    ensures forall id :: id in Applied(rows, changes, before, next).facts ==>
              id < Applied(rows, changes, before, next).nextId
  {
    if changes != [] {
      var n := |changes| - 1;
      UntouchedIsUnchanged(rows, changes[..n], before, next);
      var so, c := Applied(rows, changes[..n], before, next), changes[n];
      assert !Touches(c, before);
      UntouchedOnce(so, c, before, next);
    }
  }

  lemma UntouchedOnce(rows: Rows, c: Change, before: map<nat, Fact>, next: nat)
    requires ConfirmedRows(rows.facts) == ConfirmedRows(before) && !Touches(c, before)
    requires forall id :: id in rows.facts ==> id < rows.nextId
    ensures ConfirmedRows(AppliedOne(rows, c, before, next).facts) == ConfirmedRows(before)
  {
  }

  /** The flag errs on one side only: where it is not raised, confirmed content did not move. */
  lemma UnflaggedKeepsConfirmed(p: Profile, patch: Patch)
    requires WellFormed(p) && !Flagged(p, patch)
    ensures ConfirmedRows(Patched(p, patch).facts) == ConfirmedRows(p.facts) && SameConfirmed(p, Patched(p, patch))
  {
    UntouchedIsUnchanged(Rows(p.facts, p.nextId), patch.changes, p.facts, p.revision + 1);
    SameRowsSameFacts(p.facts, Patched(p, patch).facts);
  }

  lemma SameRowsSameFacts(before: map<nat, Fact>, after: map<nat, Fact>)
    requires ConfirmedRows(after) == ConfirmedRows(before)
    ensures ConfirmedFacts(after) == ConfirmedFacts(before)
  {
    assert forall id :: id in ConfirmedFacts(after) <==> id in ConfirmedRows(after);
    assert forall id :: id in ConfirmedFacts(before) <==> id in ConfirmedRows(before);
    assert forall id :: id in ConfirmedFacts(after) ==> ConfirmedFacts(after)[id] == Words(ConfirmedRows(after)[id]);
    assert forall id :: id in ConfirmedFacts(before) ==> ConfirmedFacts(before)[id] == Words(ConfirmedRows(before)[id]);
  }

  // ---------------------------------------------------------------------------
  // Runs
  // ---------------------------------------------------------------------------

  ghost function Run(acceptable: Acceptable, start: Profile, patches: seq<Patch>): Profile {
    if patches == [] then start
    else Attempted(acceptable, Run(acceptable, start, patches[..|patches| - 1]), patches[|patches| - 1])
  }

  function NewProfile(locale: string): Profile {
    Profile(1, None, None, locale, map[], 0)
  }

  lemma AttemptKeepsWellFormed(acceptable: Acceptable, p: Profile, patch: Patch)
    requires WellFormed(p)
    ensures WellFormed(Attempted(acceptable, p, patch))
  {
    AppliedIsWellFormed(Rows(p.facts, p.nextId), patch.changes, p.facts, p.revision + 1);
  }

  lemma {:induction false} RunIsWellFormed(acceptable: Acceptable, locale: string, patches: seq<Patch>)
    ensures WellFormed(Run(acceptable, NewProfile(locale), patches))
  {
    if patches != [] {
      RunIsWellFormed(acceptable, locale, patches[..|patches| - 1]);
      AttemptKeepsWellFormed(acceptable, Run(acceptable, NewProfile(locale), patches[..|patches| - 1]),
        patches[|patches| - 1]);
    }
  }

  /** The attempts of a run that were accepted. */
  ghost function AcceptedCount(acceptable: Acceptable, start: Profile, patches: seq<Patch>): nat {
    if patches == [] then 0
    else
      AcceptedCount(acceptable, start, patches[..|patches| - 1])
      + if PatchIsValid(acceptable, Run(acceptable, start, patches[..|patches| - 1]), patches[|patches| - 1]) then 1 else 0
  }

  /**
    `confirmed_revision` answers which revision last changed anything that may be used: over any
    run of attempts there was a world at that revision (or the first, where there is none) with
    exactly the confirmed facts and contact of now. The revision itself counts accepted patches.
  */
  lemma {:induction false} ConfirmedRevisionTracks(acceptable: Acceptable, locale: string, patches: seq<Patch>)
    returns (m: nat)
    ensures m <= |patches|
    ensures var past, now := Run(acceptable, NewProfile(locale), patches[..m]),
                             Run(acceptable, NewProfile(locale), patches);
            && SameConfirmed(past, now) && ConfirmedRows(past.facts) == ConfirmedRows(now.facts)
            && (if now.confirmedRevision.Some? then past.revision == now.confirmedRevision.value else m == 0)
    ensures Run(acceptable, NewProfile(locale), patches).revision
         == 1 + AcceptedCount(acceptable, NewProfile(locale), patches)
  {
    if patches == [] {
      m := 0;
    } else {
      var n := |patches| - 1;
      m := ConfirmedRevisionTracks(acceptable, locale, patches[..n]);
      assert patches[..n][..m] == patches[..m];
      RunIsWellFormed(acceptable, locale, patches[..n]);
      var p := Run(acceptable, NewProfile(locale), patches[..n]);
      if PatchIsValid(acceptable, p, patches[n]) {
        if Flagged(p, patches[n]) {
          m := n + 1;
          assert patches[..m] == patches;
        } else {
          UnflaggedKeepsConfirmed(p, patches[n]);
        }
      }
    }
  }

  // ---------------------------------------------------------------------------
  // When the flag is right
  // ---------------------------------------------------------------------------

  function RowAt(facts: map<nat, Fact>, id: nat): Option<Fact> {
    if id in facts then Some(facts[id]) else None
  }

  /** What may be used of a row: its words, if they are confirmed. */
  function Usable(row: Option<Fact>): Option<Fact> {
    if row.Some? && row.value.confirmed then Some(Words(row.value)) else None
  }

  function ConfirmedAt(facts: map<nat, Fact>, id: nat): Option<Fact> {
    Usable(RowAt(facts, id))
  }

  /** What a batch makes of one stored row, whatever it does to the others. */
  function RowAfter(stored: Fact, changes: seq<Change>, id: nat, next: nat): Option<Fact> {
    if changes == [] then Some(stored)
    else
      var row, c := RowAfter(stored, changes[..|changes| - 1], id, next), changes[|changes| - 1];
      if !Targets(c, id) then row
      else if c.Delete? || row.None? then None
      else Some(Written(c, Some(stored), next))
  }

  lemma {:induction false} AppliedToRow(rows: Rows, changes: seq<Change>, next: nat, id: nat)
    requires id in rows.facts && forall k :: k in rows.facts ==> k < rows.nextId
    ensures RowAt(Applied(rows, changes, rows.facts, next).facts, id) == RowAfter(rows.facts[id], changes, id, next)
    ensures rows.nextId <= Applied(rows, changes, rows.facts, next).nextId
  {
    if changes != [] {
      AppliedToRow(rows, changes[..|changes| - 1], next, id);
    }
  }

  /** The change has the last word on this row, which no change deletes. */
  ghost predicate Settles(changes: seq<Change>, i: nat, id: nat) {
    && i < |changes| && changes[i].Upsert? && Targets(changes[i], id)
    && forall j :: 0 <= j < |changes| && j != i && Targets(changes[j], id) ==> j < i && changes[j].Upsert?
  }

  /** A batch leaves a row alone, deletes it, or leaves it as its last change wrote it. */
  lemma {:induction false} RowAfterIs(stored: Fact, changes: seq<Change>, id: nat, next: nat)
    ensures var row := RowAfter(stored, changes, id, next);
            && (row.None? <==> exists i :: 0 <= i < |changes| && changes[i].Delete? && Targets(changes[i], id))
            && ((forall i :: 0 <= i < |changes| ==> !Targets(changes[i], id)) ==> row == Some(stored))
            && (row.Some? && (exists i :: 0 <= i < |changes| && Targets(changes[i], id)) ==>
                  exists i: nat :: Settles(changes, i, id) && row.value == Written(changes[i], Some(stored), next))
  {
    if changes != [] {
      var n := |changes| - 1;
      var init := changes[..n];
      RowAfterIs(stored, init, id, next);
      assert forall i :: 0 <= i < n ==> init[i] == changes[i];
      if Targets(changes[n], id) {
        if RowAfter(stored, changes, id, next).Some? {
          assert Settles(changes, n, id);
        }
      } else if i: nat :| Settles(init, i, id) && RowAfter(stored, init, id, next) == Some(Written(init[i], Some(stored), next)) {
        assert Settles(changes, i, id) && changes[i] == init[i];
      }
    }
  }

  /**
    The change moves confirmed content: it adds a confirmed fact, deletes one, or has the last
    word on a row and leaves other confirmed words there than it found.
  */
  ghost predicate Counts(changes: seq<Change>, i: nat, facts: map<nat, Fact>)
    requires i < |changes|
  {
    match changes[i]
    case Delete(target) => target in facts && facts[target].confirmed
    case Upsert(id, _, _, _, _, confirmed) =>
      if id.None? then confirmed
      else
        id.value in facts && Settles(changes, i, id.value)
        && Usable(Some(Written(changes[i], Some(facts[id.value]), 0))) != ConfirmedAt(facts, id.value)
  }

  lemma RowMovesIff(facts: map<nat, Fact>, changes: seq<Change>, id: nat, next: nat)
    requires id in facts
    ensures Usable(RowAfter(facts[id], changes, id, next)) != ConfirmedAt(facts, id) <==>
              exists i :: 0 <= i < |changes| && Targets(changes[i], id) && Counts(changes, i, facts)
  {
    RowAfterIs(facts[id], changes, id, next);
    var row := RowAfter(facts[id], changes, id, next);
    if i :| 0 <= i < |changes| && Targets(changes[i], id) && Counts(changes, i, facts) && changes[i].Upsert? {
      assert Settles(changes, i, id);
      assert row == Some(Written(changes[i], Some(facts[id]), next));
    }
    if i: nat :| Settles(changes, i, id) && row == Some(Written(changes[i], Some(facts[id]), next)) {
      assert Usable(row) != ConfirmedAt(facts, id) ==> Counts(changes, i, facts);
    }
  }

  predicate AddsConfirmed(c: Change) {
    c.Upsert? && c.id.None? && c.confirmed
  }

  /** A row the batch added is confirmed. */
  ghost predicate HasNewConfirmed(facts: map<nat, Fact>, first: nat) {
    exists k :: k in facts && first <= k && facts[k].confirmed
  }

  /** One of the rows a batch adds is confirmed exactly when one of its additions is. */
  lemma {:induction false} NewRowsConfirmed(rows: Rows, changes: seq<Change>, next: nat)
    requires forall k :: k in rows.facts ==> k < rows.nextId
    requires forall i :: 0 <= i < |changes| ==> changes[i].Delete? ==> changes[i].target in rows.facts
    ensures var after := Applied(rows, changes, rows.facts, next);
            && rows.nextId <= after.nextId
            && (forall k :: k in after.facts ==> k < after.nextId)
            && (forall k :: k in after.facts && k < rows.nextId ==> k in rows.facts)
            && (HasNewConfirmed(after.facts, rows.nextId) <==>
                exists i :: 0 <= i < |changes| && AddsConfirmed(changes[i]))
  {
    if changes != [] {
      var n := |changes| - 1;
      var init, c := changes[..n], changes[n];
      var so := Applied(rows, init, rows.facts, next);
      assert forall i :: 0 <= i < n ==> init[i] == changes[i];
      NewRowsConfirmed(rows, init, next);
      OneMoreNewRow(so, c, rows.facts, rows.nextId, next);
      if HasNewConfirmed(so.facts, rows.nextId) {
        var i :| 0 <= i < |init| && AddsConfirmed(init[i]);
        assert AddsConfirmed(changes[i]);
      }
    }
  }

  lemma OneMoreNewRow(rows: Rows, c: Change, before: map<nat, Fact>, first: nat, next: nat)
    requires forall k :: k in rows.facts ==> k < rows.nextId
    requires forall k :: k in before ==> k < first
    requires first <= rows.nextId && (c.Delete? ==> c.target in before)
    ensures HasNewConfirmed(AppliedOne(rows, c, before, next).facts, first) <==>
            HasNewConfirmed(rows.facts, first) || AddsConfirmed(c)
  {
    var after := AppliedOne(rows, c, before, next);
    if k :| k in rows.facts && first <= k && rows.facts[k].confirmed {
      assert k in after.facts && after.facts[k] == rows.facts[k];
    }
    if AddsConfirmed(c) {
      assert rows.nextId in after.facts;
    }
    if k :| k in after.facts && first <= k && after.facts[k].confirmed {
      assert k in rows.facts ==> rows.facts[k] == after.facts[k];
    }
  }

  // ---------------------------------------------------------------------------
  // What a patch writes
  // ---------------------------------------------------------------------------

  /** The row says what the change says, and of file and excerpt, where the change is silent, what was stored. */
  ghost predicate RowSays(row: Fact, c: Change, stored: Option<Fact>, next: nat)
    requires c.Upsert?
  {
    && row.kind == c.kind && row.value == c.value && row.confirmed == c.confirmed && row.revision == next
    && (c.file.Some? ==> row.file == c.file.value) && (c.excerpt.Some? ==> row.excerpt == c.excerpt.value)
    && (stored.Some? ==>
          && (c.file.None? ==> row.file == stored.value.file)
          && (c.excerpt.None? ==> row.excerpt == stored.value.excerpt))
    && (stored.None? ==> (c.file.None? ==> row.file.None?) && (c.excerpt.None? ==> row.excerpt.None?))
  }

  /** A stored row is gone where the batch deletes it, as it was where the batch does not name it, and else as last written. */
  ghost predicate StoredRowSays(before: map<nat, Fact>, after: map<nat, Fact>, id: nat, changes: seq<Change>, next: nat)
    requires id in before
  {
    && (id !in after <==> exists i :: 0 <= i < |changes| && changes[i] == Delete(id))
    && (id in after ==>
          if exists i: nat :: LastWord(changes, i, id)
          then exists i: nat :: LastWord(changes, i, id) && RowSays(after[id], changes[i], Some(before[id]), next)
          else after[id] == before[id])
  }

  /** The last change of the batch that writes this row. */
  ghost predicate LastWord(changes: seq<Change>, i: nat, id: nat) {
    && i < |changes| && changes[i].Upsert? && changes[i].id == Some(id)
    && forall j :: i < j < |changes| ==> !(changes[j].Upsert? && changes[j].id == Some(id))
  }

  lemma StoredRowIs(p: Profile, patch: Patch, id: nat)
    requires WellFormed(p) && id in p.facts
    ensures StoredRowSays(p.facts, Patched(p, patch).facts, id, patch.changes, p.revision + 1)
  {
    var rows, next, changes := Rows(p.facts, p.nextId), p.revision + 1, patch.changes;
    AppliedToRow(rows, changes, next, id);
    RowAfterIs(p.facts[id], changes, id, next);
    var after := Patched(p, patch).facts;
    assert RowAt(after, id) == RowAfter(p.facts[id], changes, id, next);
    if id in after {
      if i: nat :| Settles(changes, i, id) && after[id] == Written(changes[i], Some(p.facts[id]), next) {
        assert LastWord(changes, i, id) && RowSays(after[id], changes[i], Some(p.facts[id]), next);
      } else {
        assert forall i :: 0 <= i < |changes| ==> !Targets(changes[i], id);
      }
    } else {
      var i :| 0 <= i < |changes| && changes[i].Delete? && Targets(changes[i], id);
      assert changes[i] == Delete(id);
    }
  }

  /** How many rows a batch adds. */
  function Additions(changes: seq<Change>): nat {
    if changes == [] then 0
    else
      Additions(changes[..|changes| - 1])
      + if changes[|changes| - 1].Upsert? && changes[|changes| - 1].id.None? then 1 else 0
  }

  /** The addition stands under the next id that was free when its turn came. */
  ghost predicate AddedAt(after: map<nat, Fact>, first: nat, changes: seq<Change>, i: nat, next: nat) {
    && i < |changes| && changes[i].Upsert? && changes[i].id.None?
    && first + Additions(changes[..i]) in after
    && RowSays(after[first + Additions(changes[..i])], changes[i], None, next)
  }

  /** The ids a batch hands out follow one another, and nothing else is new. */
  lemma {:induction false} NewIdsFollow(rows: Rows, changes: seq<Change>, next: nat)
    requires forall k :: k in rows.facts ==> k < rows.nextId
    requires forall i :: 0 <= i < |changes| ==> changes[i].Delete? ==> changes[i].target in rows.facts
    ensures var after := Applied(rows, changes, rows.facts, next);
            && after.nextId == rows.nextId + Additions(changes)
            && (forall k :: k in after.facts ==> k < after.nextId)
            && (forall k :: k in after.facts && k !in rows.facts ==> rows.nextId <= k)
  {
    if changes != [] {
      NewIdsFollow(rows, changes[..|changes| - 1], next);
    }
  }

  /** Every addition stands under an id of its own, in order. */
  lemma {:induction false} AdditionIs(rows: Rows, changes: seq<Change>, i: nat, next: nat)
    requires forall k :: k in rows.facts ==> k < rows.nextId
    requires forall i :: 0 <= i < |changes| ==> changes[i].Delete? ==> changes[i].target in rows.facts
    requires i < |changes| && changes[i].Upsert? && changes[i].id.None?
    ensures AddedAt(Applied(rows, changes, rows.facts, next).facts, rows.nextId, changes, i, next)
    decreases |changes|
  {
    var n := |changes| - 1;
    var init := changes[..n];
    NewIdsFollow(rows, init, next);
    if i < n {
      assert forall k :: 0 <= k < n ==> init[k] == changes[k];
      AdditionIs(rows, init, i, next);
      AdditionsGrow(init, i);
      assert init[..i] == changes[..i];
      LaterChangeKeeps(
        Applied(rows, init, rows.facts, next), changes[n], rows.facts, rows.nextId + Additions(changes[..i]), next);
    }
  }

  lemma LaterChangeKeeps(rows: Rows, c: Change, before: map<nat, Fact>, id: nat, next: nat)
    requires id in rows.facts && id !in before && id < rows.nextId && (c.Delete? ==> c.target in before)
    ensures var after := AppliedOne(rows, c, before, next).facts; id in after && after[id] == rows.facts[id]
  {
  }

  lemma {:induction false} AdditionsGrow(changes: seq<Change>, i: nat)
    requires i <= |changes|
    ensures Additions(changes[..i]) <= Additions(changes)
    ensures i < |changes| && changes[i].Upsert? && changes[i].id.None? ==> Additions(changes[..i]) < Additions(changes)
    decreases |changes|
  {
    if i < |changes| {
      var n := |changes| - 1;
      assert changes[..n][..i] == changes[..i];
      AdditionsGrow(changes[..n], i);
      assert i < n ==> changes[..n][i] == changes[i];
    } else {
      assert changes[..i] == changes;
    }
  }

  /**
    What an accepted patch writes: contact and locale where it names them; each stored row and
    each new one as the changes say; a new revision; and `confirmed_revision` moved to it exactly
    when the patch names the contact, or a change is or was confirmed.
  */
  lemma PatchWrites(acceptable: Acceptable, p: Profile, patch: Patch)
    requires WellFormed(p) && PatchIsValid(acceptable, p, patch)
    ensures var after := Patched(p, patch);
            && after.revision == p.revision + 1
            && after.contact == (if patch.contact.Some? then patch.contact else p.contact)
            && (patch.locale.Some? ==> after.locale == patch.locale.value) && (patch.locale.None? ==> after.locale == p.locale)
            && (forall id :: id in p.facts ==> StoredRowSays(p.facts, after.facts, id, patch.changes, after.revision))
            && after.nextId == p.nextId + Additions(patch.changes)
            && (forall i: nat :: i < |patch.changes| && patch.changes[i].Upsert? && patch.changes[i].id.None? ==>
                  AddedAt(after.facts, p.nextId, patch.changes, i, after.revision))
            && (forall k :: k in after.facts && k !in p.facts ==> p.nextId <= k < after.nextId)
            && after.confirmedRevision ==
                 if patch.contact.Some? || exists i :: 0 <= i < |patch.changes| && NamesConfirmed(patch.changes[i], p.facts)
                 then Some(after.revision) else p.confirmedRevision
  {
    forall id | id in p.facts
      ensures StoredRowSays(p.facts, Patched(p, patch).facts, id, patch.changes, p.revision + 1)
    {
      StoredRowIs(p, patch, id);
    }
    assert forall i :: 0 <= i < |patch.changes| ==> ChangeIsValid(acceptable, p.facts, patch.changes[i]);
    NewIdsFollow(Rows(p.facts, p.nextId), patch.changes, p.revision + 1);
    forall i: nat | i < |patch.changes| && patch.changes[i].Upsert? && patch.changes[i].id.None?
      ensures AddedAt(Patched(p, patch).facts, p.nextId, patch.changes, i, p.revision + 1)
    {
      AdditionIs(Rows(p.facts, p.nextId), patch.changes, i, p.revision + 1);
    }
    FlaggedIff(p, patch);
  }

  /** What the change writes is confirmed, or what it writes over or deletes was. */
  ghost predicate NamesConfirmed(c: Change, facts: map<nat, Fact>) {
    || (c.Upsert? && c.confirmed)
    || exists id :: id in facts && facts[id].confirmed && (c == Delete(id) || (c.Upsert? && c.id == Some(id)))
  }

  lemma FlaggedIff(p: Profile, patch: Patch)
    ensures Flagged(p, patch) <==>
              patch.contact.Some? || exists i :: 0 <= i < |patch.changes| && NamesConfirmed(patch.changes[i], p.facts)
  {
    forall i | 0 <= i < |patch.changes|
      ensures Touches(patch.changes[i], p.facts) <==> NamesConfirmed(patch.changes[i], p.facts)
    {
      var c := patch.changes[i];
      if c.Delete? && Touches(c, p.facts) {
        assert c == Delete(c.target);
      }
    }
  }

  /** The patch moves what may be used: another contact, or a confirmed fact added, deleted or left saying something else. */
  ghost predicate MovesConfirmed(p: Profile, patch: Patch) {
    || (patch.contact.Some? && patch.contact != p.contact)
    || exists i :: 0 <= i < |patch.changes| && Counts(patch.changes, i, p.facts)
  }

  lemma StoredRowsMoveIff(acceptable: Acceptable, p: Profile, patch: Patch)
    requires WellFormed(p) && PatchIsValid(acceptable, p, patch)
    ensures (exists id :: id in p.facts && ConfirmedAt(Patched(p, patch).facts, id) != ConfirmedAt(p.facts, id)) <==>
            exists i :: 0 <= i < |patch.changes| && !(patch.changes[i].Upsert? && patch.changes[i].id.None?)
                     && Counts(patch.changes, i, p.facts)
  {
    var rows, next := Rows(p.facts, p.nextId), p.revision + 1;
    forall id | id in p.facts
      ensures ConfirmedAt(Patched(p, patch).facts, id) != ConfirmedAt(p.facts, id) <==>
              exists i :: 0 <= i < |patch.changes| && Targets(patch.changes[i], id) && Counts(patch.changes, i, p.facts)
    {
      AppliedToRow(rows, patch.changes, next, id);
      RowMovesIff(p.facts, patch.changes, id, next);
      assert RowAt(Patched(p, patch).facts, id) == RowAfter(p.facts[id], patch.changes, id, next);
    }
    if i :| 0 <= i < |patch.changes| && !(patch.changes[i].Upsert? && patch.changes[i].id.None?)
            && Counts(patch.changes, i, p.facts) {
      var c := patch.changes[i];
      assert ChangeIsValid(acceptable, p.facts, c);
      var id := if c.Delete? then c.target else c.id.value;
      assert Targets(c, id) && id in p.facts;
    }
  }

  /** Over every patch that is accepted: confirmed content moves exactly when the patch says it does. */
  lemma ConfirmedMovesIff(acceptable: Acceptable, p: Profile, patch: Patch)
    requires WellFormed(p) && PatchIsValid(acceptable, p, patch)
    ensures !SameConfirmed(p, Patched(p, patch)) <==> MovesConfirmed(p, patch)
  {
    var after := Patched(p, patch);
    var rows, next := Rows(p.facts, p.nextId), p.revision + 1;
    assert forall i :: 0 <= i < |patch.changes| ==> ChangeIsValid(acceptable, p.facts, patch.changes[i]);
    NewRowsConfirmed(rows, patch.changes, next);
    StoredRowsMoveIff(acceptable, p, patch);
    SameConfirmedIff(p.facts, after.facts, p.nextId);
    if i :| 0 <= i < |patch.changes| && AddsConfirmed(patch.changes[i]) {
      assert Counts(patch.changes, i, p.facts);
    }
  }

  lemma SameConfirmedIff(before: map<nat, Fact>, after: map<nat, Fact>, first: nat)
    requires forall k :: k in before ==> k < first
    requires forall k :: k in after && k < first ==> k in before
    ensures ConfirmedFacts(before) == ConfirmedFacts(after) <==>
            !HasNewConfirmed(after, first) && forall id :: id in before ==> ConfirmedAt(after, id) == ConfirmedAt(before, id)
  {
    var a, b := ConfirmedFacts(before), ConfirmedFacts(after);
    assert forall id :: id in a <==> ConfirmedAt(before, id).Some?;
    assert forall id :: id in b <==> ConfirmedAt(after, id).Some?;
    assert forall id :: id in a ==> ConfirmedAt(before, id) == Some(a[id]);
    assert forall id :: id in b ==> ConfirmedAt(after, id) == Some(b[id]);
    assert forall k :: k in after && first <= k && after[k].confirmed ==> k in b && k !in a;
    if a == b {
      forall id | id in before
        ensures ConfirmedAt(after, id) == ConfirmedAt(before, id)
      {
        assert id in a <==> id in b;
      }
    }
    if !HasNewConfirmed(after, first) && forall id :: id in before ==> ConfirmedAt(after, id) == ConfirmedAt(before, id) {
      SameRowsSameConfirmed(before, after, first);
    }
  }

  lemma SameRowsSameConfirmed(before: map<nat, Fact>, after: map<nat, Fact>, first: nat)
    requires forall k :: k in after && k < first ==> k in before
    requires !HasNewConfirmed(after, first)
    requires forall id :: id in before ==> ConfirmedAt(after, id) == ConfirmedAt(before, id)
    ensures ConfirmedFacts(before) == ConfirmedFacts(after)
  {
  }

  /**
    `confirmed_revision` is meant to move only when what may be used "actually changed". For a
    patch that is accepted, it is right exactly when the patch raises no flag or moves confirmed
    content. It is raised for nothing when the contact, or a confirmed fact, is sent again word
    for word, and when words the patch confirms are replaced or deleted later in the same patch.
  */
  lemma FlagIsRightIff(acceptable: Acceptable, p: Profile, patch: Patch)
    requires WellFormed(p) && PatchIsValid(acceptable, p, patch)
    ensures (Flagged(p, patch) <==> !SameConfirmed(p, Patched(p, patch))) <==>
            MovesConfirmed(p, patch)
            || (patch.contact.None? && forall i :: 0 <= i < |patch.changes| ==> !NamesConfirmed(patch.changes[i], p.facts))
  {
    FlaggedIff(p, patch);
    ConfirmedMovesIff(acceptable, p, patch);
    if MovesConfirmed(p, patch) && patch.contact.None? {
      var i :| 0 <= i < |patch.changes| && Counts(patch.changes, i, p.facts);
      assert Touches(patch.changes[i], p.facts);
    }
  }

  /** Sending the same contact again moves `confirmed_revision` and nothing that may be used. */
  lemma SameContactRaisesTheFlag(acceptable: Acceptable, contact: string)
    ensures var p := Profile(3, Some(2), Some(contact), "en", map[], 0);
            var patch := Patch(3, Some(contact), None, []);
            && PatchIsValid(acceptable, p, patch) && SameConfirmed(p, Patched(p, patch))
            && Patched(p, patch).confirmedRevision == Some(4)
  {
  }

  /** So does sending a confirmed fact again, word for word. */
  lemma SameFactRaisesTheFlag(acceptable: Acceptable, kind: string, value: string)
    requires acceptable(kind, value)
    ensures var p := Profile(3, Some(2), None, "en", map[0 := Fact(kind, value, None, None, true, 2)], 1);
            var patch := Patch(3, None, None, [Upsert(Some(0), kind, value, None, None, true)]);
            && PatchIsValid(acceptable, p, patch) && SameConfirmed(p, Patched(p, patch))
            && Patched(p, patch).confirmedRevision == Some(4)
  {
    var p := Profile(3, Some(2), None, "en", map[0 := Fact(kind, value, None, None, true, 2)], 1);
    var change := Upsert(Some(0), kind, value, None, None, true);
    var patch := Patch(3, None, None, [change]);
    assert Touches(patch.changes[0], p.facts);
    assert patch.changes[..0] == [];
    assert Applied(Rows(p.facts, 1), [], p.facts, 4) == Rows(p.facts, 1);
    assert Patched(p, patch).facts == map[0 := Fact(kind, value, None, None, true, 4)];
  }
}
