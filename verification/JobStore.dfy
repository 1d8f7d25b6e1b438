/**
  Jobs and where they were seen: the one write path for a posting, its identity rules, and
  what a user may change (apps/api/src/discovery/jobs.ts, connectors.ts, routes/jobs.ts).
*/
module JobStore {
  import opened Common
  import opened Ordering
  import opened InsertionMap

  datatype JobStatus = Active | Closed | Unknown

  datatype ClosedReason = ByUser | BySnapshot | BySource

  /** What a source says of a posting; `body` stands for every column the user cannot correct. */
  datatype Content = Content(hash: string, company: string, title: string, body: string)

  datatype Job = Job(
    canonicalKey: string, content: Content, status: JobStatus, closedReason: Option<ClosedReason>, closedAt: Option<Time>,
    titleEdited: Option<Time>, companyEdited: Option<Time>, revision: nat,
    firstSeen: Time, lastSeen: Time, lastFetched: Option<Time>)

  /** One row per connector identity, with the closure rule's bookkeeping. */
  datatype Provenance = Provenance(
    sourceKey: string, job: nat, source: Option<nat>, connector: string, externalId: string,
    canonicalUrl: string, applyUrl: Option<string>, retrievedAt: Time,
    missing: nat, missingSince: Option<Time>, lastMissing: Option<Time>)

  /** A job's identity is its position; rows stand in the order they were created. */
  datatype Db = Db(jobs: seq<Job>, rows: seq<Provenance>)

  datatype Posting = Posting(
    sourceKey: string, externalId: string, canonicalUrl: string, applyUrl: Option<string>,
    content: Content, retrievedAt: Time)

  datatype Origin = Origin(connector: string, source: Option<nat>, board: Option<string>)

  /** URL handling: what parses as http(s), the normal form, its host, and `ILIKE '%//host/%'`. */
  datatype Web = Web(
    isHttp: string -> bool, normalize: string -> string, host: string -> Option<string>,
    mentions: (string, string) -> bool)

  const BOARD_CONNECTORS: set<string> := {"greenhouse", "lever"}

  const SourceKeyOf: Provenance -> string := (r: Provenance) => r.sourceKey
  const CanonicalKeyOf: Job -> string := (j: Job) => j.canonicalKey

  // ---------------------------------------------------------------------------
  // Identity
  // ---------------------------------------------------------------------------

  function CanonicalKeyFor(web: Web, posting: Posting, origin: Origin): string {
    if origin.board.Some? && origin.connector in BOARD_CONNECTORS then
      origin.connector + ":" + origin.board.value + ":" + posting.externalId
    else if web.isHttp(posting.canonicalUrl) then "url:" + web.normalize(posting.canonicalUrl)
    else if posting.applyUrl.Some? && web.isHttp(posting.applyUrl.value) then "url:" + web.normalize(posting.applyUrl.value)
    else "manual:" + posting.content.hash
  }

  function DestinationUrl(web: Web, applyUrl: Option<string>, canonicalUrl: string): Option<string> {
    if applyUrl.Some? && web.isHttp(applyUrl.value) then Some(web.normalize(applyUrl.value))
    else if web.isHttp(canonicalUrl) then Some(web.normalize(canonicalUrl))
    else None
  }

  function FirstIndex<T>(s: seq<T>, p: T -> bool): (i: nat)
    ensures i <= |s|
    ensures i < |s| ==> p(s[i])
    ensures forall j :: 0 <= j < i ==> !p(s[j])
  {
    if s == [] || p(s[0]) then 0 else 1 + FirstIndex(s[1..], p)
  }

  datatype LinkReason = SameSourceKey | SameCanonicalKey | SameApplyUrl | SameRequisition

  datatype Link = Link(job: nat, reason: LinkReason)

  /** A candidate row the host narrowed to, applied to at the same place. */
  predicate AppliesAt(web: Web, row: Provenance, host: string, destination: string) {
    && ((row.applyUrl.Some? && web.mentions(row.applyUrl.value, host)) || web.mentions(row.canonicalUrl, host))
    && DestinationUrl(web, row.applyUrl, row.canonicalUrl) == Some(destination)
  }

  function ByApplyUrl(web: Web, rows: seq<Provenance>, posting: Posting): Option<nat> {
    var destination := DestinationUrl(web, posting.applyUrl, posting.canonicalUrl);
    if destination.None? || web.host(destination.value).None? then None
    else
      var i := FirstIndex(rows,
        (r: Provenance) => AppliesAt(web, r, web.host(destination.value).value, destination.value));
      if i < |rows| then Some(i) else None
  }

  predicate SameRequisitionAs(row: Provenance, posting: Posting, origin: Origin) {
    row.connector == origin.connector && row.externalId == posting.externalId
  }

  function ByRequisition(rows: seq<Provenance>, posting: Posting, origin: Origin): Option<nat> {
    if origin.connector !in BOARD_CONNECTORS then None
    else
      var i := FirstIndex(rows, (r: Provenance) => SameRequisitionAs(r, posting, origin));
      if i < |rows| then Some(i) else None
  }

  /** `findExistingJob`: the first rule that finds one wins. */
  function FindExisting(web: Web, db: Db, posting: Posting, key: string, origin: Origin): Option<Link> {
    var row, job := IndexOf(db.rows, posting.sourceKey, SourceKeyOf), IndexOf(db.jobs, key, CanonicalKeyOf);
    var applied, required := ByApplyUrl(web, db.rows, posting), ByRequisition(db.rows, posting, origin);
    if row < |db.rows| then Some(Link(db.rows[row].job, SameSourceKey))
    else if job < |db.jobs| then Some(Link(job, SameCanonicalKey))
    else if applied.Some? then Some(Link(db.rows[applied.value].job, SameApplyUrl))
    else if required.Some? then Some(Link(db.rows[required.value].job, SameRequisition))
    else None
  }

  // ---------------------------------------------------------------------------
  // The write
  // ---------------------------------------------------------------------------

  /** The source's content, minus whatever the user has corrected. */
  function SourceContent(job: Job, posting: Posting): Content {
    Content(posting.content.hash,
      if job.companyEdited.Some? then job.content.company else posting.content.company,
      if job.titleEdited.Some? then job.content.title else posting.content.title,
      posting.content.body)
  }

  predicate Changes(job: Job, posting: Posting, key: string) {
    job.canonicalKey == key && job.content.hash != posting.content.hash
  }

  predicate Reopens(job: Job) {
    !job.status.Active? && job.closedReason != Some(ByUser)
  }

  function Refreshed(job: Job, posting: Posting, key: string, seenAt: Time): Job {
    var content := if Changes(job, posting, key) then SourceContent(job, posting) else job.content;
    job.(
      content := content,
      revision := if Changes(job, posting, key) then job.revision + 1 else job.revision,
      status := if Reopens(job) then Active else job.status,
      closedAt := if Reopens(job) then None else job.closedAt,
      closedReason := if Reopens(job) then None else job.closedReason,
      lastSeen := Max(job.lastSeen, seenAt),
      lastFetched :=
        Some(if job.lastFetched.Some? then Max(job.lastFetched.value, posting.retrievedAt) else posting.retrievedAt))
  }

  function NewJob(posting: Posting, key: string, seenAt: Time): Job {
    Job(key, posting.content, Active, None, None, None, None, 1, seenAt, seenAt, Some(posting.retrievedAt))
  }

  function RowFor(posting: Posting, origin: Origin, job: nat): Provenance {
    Provenance(posting.sourceKey, job, origin.source, origin.connector, posting.externalId,
      posting.canonicalUrl, posting.applyUrl, posting.retrievedAt, 0, None, None)
  }

  /** `upsertNormalizedJob` */
  function Upserted(web: Web, db: Db, posting: Posting, origin: Origin, seenAt: Time): Db {
    var key := CanonicalKeyFor(web, posting, origin);
    var link := FindExisting(web, db, posting, key, origin);
    if link.Some? && link.value.job < |db.jobs| then
      var j := link.value.job;
      Db(db.jobs[j := Refreshed(db.jobs[j], posting, key, seenAt)], Put(db.rows, RowFor(posting, origin, j), SourceKeyOf))
    else
      Db(db.jobs + [NewJob(posting, key, seenAt)], Put(db.rows, RowFor(posting, origin, |db.jobs|), SourceKeyOf))
  }

  /** One job per canonical key, one row per source key, and every row belongs to a job. */
  ghost predicate Valid(db: Db) {
    && UniqueKeys(db.jobs, CanonicalKeyOf)
    && UniqueKeys(db.rows, SourceKeyOf)
    && forall r :: 0 <= r < |db.rows| ==> db.rows[r].job < |db.jobs|
  }

  /** Why a posting landed on a job: one of four identities, never a likeness. */
  ghost predicate Identifies(web: Web, db: Db, posting: Posting, origin: Origin, link: Link) {
    match link.reason
    case SameSourceKey =>
      exists r :: 0 <= r < |db.rows| && db.rows[r].job == link.job && db.rows[r].sourceKey == posting.sourceKey
    case SameCanonicalKey =>
      link.job < |db.jobs| && db.jobs[link.job].canonicalKey == CanonicalKeyFor(web, posting, origin)
    case SameApplyUrl =>
      exists r :: 0 <= r < |db.rows| && db.rows[r].job == link.job
               && DestinationUrl(web, db.rows[r].applyUrl, db.rows[r].canonicalUrl).Some?
               && DestinationUrl(web, db.rows[r].applyUrl, db.rows[r].canonicalUrl)
                    == DestinationUrl(web, posting.applyUrl, posting.canonicalUrl)
    case SameRequisition =>
      origin.connector in BOARD_CONNECTORS
      && exists r :: 0 <= r < |db.rows| && db.rows[r].job == link.job && SameRequisitionAs(db.rows[r], posting, origin)
  }

  // ---------------------------------------------------------------------------
  // The four identities, on the rows themselves
  // ---------------------------------------------------------------------------

  /** Applied to at this place: the application URL where it is one, and else the posting's own page. */
  ghost predicate AppliedToAt(web: Web, applyUrl: Option<string>, canonicalUrl: string, place: string) {
    if applyUrl.Some? && web.isHttp(applyUrl.value) then place == web.normalize(applyUrl.value)
    else web.isHttp(canonicalUrl) && place == web.normalize(canonicalUrl)
  }

  /** One of the row's URLs mentions the host, and it is applied to at the same place as the posting. */
  ghost predicate SamePlace(web: Web, row: Provenance, posting: Posting, place: string, host: string) {
    && AppliedToAt(web, posting.applyUrl, posting.canonicalUrl, place) && web.host(place) == Some(host)
    && AppliedToAt(web, row.applyUrl, row.canonicalUrl, place)
    && ((row.applyUrl.Some? && web.mentions(row.applyUrl.value, host)) || web.mentions(row.canonicalUrl, host))
  }

  /** The reason for which row `r` is this posting's, of the three that rows give. */
  ghost predicate RowMatches(web: Web, rows: seq<Provenance>, r: int, posting: Posting, origin: Origin, reason: LinkReason) {
    && 0 <= r < |rows|
    && match reason
       case SameSourceKey => rows[r].sourceKey == posting.sourceKey
       case SameCanonicalKey => false
       case SameApplyUrl => exists place, host :: SamePlace(web, rows[r], posting, place, host)
       case SameRequisition =>
         && origin.connector in {"greenhouse", "lever"}
         && rows[r].connector == origin.connector && rows[r].externalId == posting.externalId
  }

  /** The rule applies: some row, or for the canonical key some job, matches. */
  ghost predicate Holds(web: Web, db: Db, posting: Posting, origin: Origin, reason: LinkReason) {
    if reason.SameCanonicalKey? then
      exists j :: 0 <= j < |db.jobs| && db.jobs[j].canonicalKey == CanonicalKeyFor(web, posting, origin)
    else exists r :: RowMatches(web, db.rows, r, posting, origin, reason)
  }

  /** The first of these rules that applies is this one. */
  ghost predicate IsFirst(web: Web, db: Db, posting: Posting, origin: Origin, reason: LinkReason) {
    && Holds(web, db, posting, origin, reason)
    && (reason.SameSourceKey? || !Holds(web, db, posting, origin, SameSourceKey))
    && (reason.SameSourceKey? || reason.SameCanonicalKey? || !Holds(web, db, posting, origin, SameCanonicalKey))
    && (reason.SameRequisition? ==> !Holds(web, db, posting, origin, SameApplyUrl))
  }

  lemma DestinationIs(web: Web, applyUrl: Option<string>, canonicalUrl: string, place: string)
    ensures DestinationUrl(web, applyUrl, canonicalUrl) == Some(place) <==> AppliedToAt(web, applyUrl, canonicalUrl, place)
  {
  }

  lemma AppliedIs(web: Web, rows: seq<Provenance>, posting: Posting, r: nat)
    requires r < |rows|
    ensures var destination := DestinationUrl(web, posting.applyUrl, posting.canonicalUrl);
            (destination.Some? && web.host(destination.value).Some?
             && AppliesAt(web, rows[r], web.host(destination.value).value, destination.value))
            <==> exists place, host :: SamePlace(web, rows[r], posting, place, host)
  {
    var destination := DestinationUrl(web, posting.applyUrl, posting.canonicalUrl);
    if destination.Some? {
      DestinationIs(web, posting.applyUrl, posting.canonicalUrl, destination.value);
      DestinationIs(web, rows[r].applyUrl, rows[r].canonicalUrl, destination.value);
      if web.host(destination.value).Some? && AppliesAt(web, rows[r], web.host(destination.value).value, destination.value) {
        assert SamePlace(web, rows[r], posting, destination.value, web.host(destination.value).value);
      }
    }
  }

  /** The application-URL rule finds the oldest row that is applied to at the posting's place. */
  lemma ByApplyUrlIs(web: Web, db: Db, posting: Posting, origin: Origin)
    ensures var found := ByApplyUrl(web, db.rows, posting);
            && (found.None? <==> !Holds(web, db, posting, origin, SameApplyUrl))
            && (found.Some? ==>
                  && RowMatches(web, db.rows, found.value, posting, origin, SameApplyUrl)
                  && forall q :: q < found.value ==> !RowMatches(web, db.rows, q, posting, origin, SameApplyUrl))
  {
    forall r | 0 <= r < |db.rows|
      ensures var destination := DestinationUrl(web, posting.applyUrl, posting.canonicalUrl);
              (destination.Some? && web.host(destination.value).Some?
               && AppliesAt(web, db.rows[r], web.host(destination.value).value, destination.value))
              <==> RowMatches(web, db.rows, r, posting, origin, SameApplyUrl)
    {
      AppliedIs(web, db.rows, posting, r);
    }
  }

  lemma ByRequisitionIs(web: Web, db: Db, posting: Posting, origin: Origin)
    ensures var found := ByRequisition(db.rows, posting, origin);
            && (found.None? <==> !Holds(web, db, posting, origin, SameRequisition))
            && (found.Some? ==>
                  && RowMatches(web, db.rows, found.value, posting, origin, SameRequisition)
                  && forall q :: q < found.value ==> !RowMatches(web, db.rows, q, posting, origin, SameRequisition))
  {
    forall r | 0 <= r < |db.rows| && origin.connector in BOARD_CONNECTORS
      ensures SameRequisitionAs(db.rows[r], posting, origin) <==> RowMatches(web, db.rows, r, posting, origin, SameRequisition)
    {
    }
  }

  lemma ByKeysIs(web: Web, db: Db, posting: Posting, origin: Origin)
    ensures var row := IndexOf(db.rows, posting.sourceKey, SourceKeyOf);
            && (row < |db.rows| <==> Holds(web, db, posting, origin, SameSourceKey))
            && (row < |db.rows| ==>
                  && RowMatches(web, db.rows, row, posting, origin, SameSourceKey)
                  && forall q :: q < row ==> !RowMatches(web, db.rows, q, posting, origin, SameSourceKey))
    ensures var job := IndexOf(db.jobs, CanonicalKeyFor(web, posting, origin), CanonicalKeyOf);
            && (job < |db.jobs| <==> Holds(web, db, posting, origin, SameCanonicalKey))
            && (job < |db.jobs| ==> db.jobs[job].canonicalKey == CanonicalKeyFor(web, posting, origin))
  {
    var row := IndexOf(db.rows, posting.sourceKey, SourceKeyOf);
    var key := CanonicalKeyFor(web, posting, origin);
    var job := IndexOf(db.jobs, key, CanonicalKeyOf);
    assert forall q :: 0 <= q < |db.rows| ==> SourceKeyOf(db.rows[q]) == db.rows[q].sourceKey;
    assert forall q :: 0 <= q < |db.jobs| ==> CanonicalKeyOf(db.jobs[q]) == db.jobs[q].canonicalKey;
    if row < |db.rows| {
      assert RowMatches(web, db.rows, row, posting, origin, SameSourceKey);
    }
  }

  /**
    A posting is new exactly when none of the four identities finds a job; otherwise it goes to
    the job of the first of them that does, by the oldest row that gives it.
  */
  lemma LinkIsFirstOfFour(web: Web, db: Db, posting: Posting, origin: Origin)
    requires Valid(db)
    ensures var link := FindExisting(web, db, posting, CanonicalKeyFor(web, posting, origin), origin);
            && (link.None? <==> forall reason :: !Holds(web, db, posting, origin, reason))
            && (link.Some? ==> link.value.job < |db.jobs| && IsFirst(web, db, posting, origin, link.value.reason))
            && (link.Some? && link.value.reason.SameCanonicalKey? ==>
                  db.jobs[link.value.job].canonicalKey == CanonicalKeyFor(web, posting, origin))
            && (link.Some? && !link.value.reason.SameCanonicalKey? ==>
                  exists r :: && RowMatches(web, db.rows, r, posting, origin, link.value.reason)
                              && db.rows[r].job == link.value.job
                              && forall q :: q < r ==> !RowMatches(web, db.rows, q, posting, origin, link.value.reason))
  {
    ByKeysIs(web, db, posting, origin);
    ByApplyUrlIs(web, db, posting, origin);
    ByRequisitionIs(web, db, posting, origin);
    LinkedOnlyByIdentity(web, db, posting, origin);
  }

  // ---------------------------------------------------------------------------
  // Canonical keys
  // ---------------------------------------------------------------------------

  /** The source states its own identity for the posting. */
  ghost predicate FromBoard(origin: Origin) {
    origin.board.Some? && (origin.connector == "greenhouse" || origin.connector == "lever")
  }

  /** The page a posting off the boards is known by: its own, or else where it is applied to. */
  ghost predicate KnownBy(web: Web, p: Posting, page: string) {
    if web.isHttp(p.canonicalUrl) then page == web.normalize(p.canonicalUrl)
    else p.applyUrl.Some? && web.isHttp(p.applyUrl.value) && page == web.normalize(p.applyUrl.value)
  }

  /**
    One listing: from boards, the same connector, board and external id; off the boards, the same
    page where either has one, and the same content where neither has.
  */
  ghost predicate OneListing(web: Web, p: Posting, o: Origin, q: Posting, o': Origin) {
    if FromBoard(o) || FromBoard(o') then
      FromBoard(o) && FromBoard(o') && o.connector == o'.connector
      && o.board.value + ":" + p.externalId == o'.board.value + ":" + q.externalId
    else if (exists page :: KnownBy(web, p, page)) || (exists page :: KnownBy(web, q, page)) then
      exists page :: KnownBy(web, p, page) && KnownBy(web, q, page)
    else p.content.hash == q.content.hash
  }

  lemma KeyKind(web: Web, p: Posting, o: Origin)
    ensures var key := CanonicalKeyFor(web, p, o);
            if FromBoard(o) then key == o.connector + (":" + (o.board.value + ":" + p.externalId))
            else if exists page :: KnownBy(web, p, page) then exists page :: KnownBy(web, p, page) && key == "url:" + page
            else key == "manual:" + p.content.hash
  {
    var key := CanonicalKeyFor(web, p, o);
    if FromBoard(o) {
      assert o.connector + ":" + o.board.value + ":" + p.externalId == o.connector + (":" + (o.board.value + ":" + p.externalId));
    } else if web.isHttp(p.canonicalUrl) {
      assert KnownBy(web, p, web.normalize(p.canonicalUrl));
    } else if p.applyUrl.Some? && web.isHttp(p.applyUrl.value) {
      assert KnownBy(web, p, web.normalize(p.applyUrl.value));
    }
  }

  lemma SameTail(head: string, a: string, b: string)
    ensures head + a == head + b <==> a == b
  {
    assert (head + a)[|head|..] == a && (head + b)[|head|..] == b;
  }

  /** Two postings are one job by canonical key exactly when they are one listing. */
  lemma CanonicalKeysAgreeIff(web: Web, p: Posting, o: Origin, q: Posting, o': Origin)
    ensures CanonicalKeyFor(web, p, o) == CanonicalKeyFor(web, q, o') <==> OneListing(web, p, o, q, o')
  {
    var a, b := CanonicalKeyFor(web, p, o), CanonicalKeyFor(web, q, o');
    KeyKind(web, p, o);
    KeyKind(web, q, o');
    assert a[0] == if FromBoard(o) then o.connector[0] else if exists page :: KnownBy(web, p, page) then 'u' else 'm';
    assert b[0] == if FromBoard(o') then o'.connector[0] else if exists page :: KnownBy(web, q, page) then 'u' else 'm';
    if FromBoard(o) && FromBoard(o') && o.connector == o'.connector {
      SameTail(o.connector, ":" + (o.board.value + ":" + p.externalId), ":" + (o'.board.value + ":" + q.externalId));
      SameTail(":", o.board.value + ":" + p.externalId, o'.board.value + ":" + q.externalId);
    } else if x, y :| !FromBoard(o) && !FromBoard(o') && KnownBy(web, p, x) && KnownBy(web, q, y) {
      SameTail("url:", x, y);
    } else {
      SameTail("manual:", p.content.hash, q.content.hash);
    }
  }

  /** A posting is linked only by identity, and only a job that exists is linked. */
  lemma LinkedOnlyByIdentity(web: Web, db: Db, posting: Posting, origin: Origin)
    requires Valid(db)
    ensures var link := FindExisting(web, db, posting, CanonicalKeyFor(web, posting, origin), origin);
            link.Some? ==> link.value.job < |db.jobs| && Identifies(web, db, posting, origin, link.value)
  {
    var key := CanonicalKeyFor(web, posting, origin);
    var row, job := IndexOf(db.rows, posting.sourceKey, SourceKeyOf), IndexOf(db.jobs, key, CanonicalKeyOf);
    if row < |db.rows| {
      assert SourceKeyOf(db.rows[row]) == posting.sourceKey;
    } else if job < |db.jobs| {
      assert CanonicalKeyOf(db.jobs[job]) == key;
    }
  }

  lemma UpsertKeepsValid(web: Web, db: Db, posting: Posting, origin: Origin, seenAt: Time)
    requires Valid(db)
    ensures Valid(Upserted(web, db, posting, origin, seenAt))
  {
    var key := CanonicalKeyFor(web, posting, origin);
    LinkedOnlyByIdentity(web, db, posting, origin);
    var link := FindExisting(web, db, posting, key, origin);
    var j := if link.Some? then link.value.job else |db.jobs|;
    PutKeepsKeys(db.rows, RowFor(posting, origin, j), SourceKeyOf);
    var db' := Upserted(web, db, posting, origin, seenAt);
    if link.None? {
      assert forall i :: 0 <= i < |db.jobs| ==> CanonicalKeyOf(db.jobs[i]) != key;
    }
    forall a, b | 0 <= a < b < |db'.jobs|
      ensures CanonicalKeyOf(db'.jobs[a]) != CanonicalKeyOf(db'.jobs[b])
    {
      assert a < |db.jobs| && CanonicalKeyOf(db'.jobs[a]) == CanonicalKeyOf(db.jobs[a]);
      assert b < |db.jobs| ==> CanonicalKeyOf(db'.jobs[b]) == CanonicalKeyOf(db.jobs[b]);
    }
  }

  // ---------------------------------------------------------------------------
  // What a write keeps
  // ---------------------------------------------------------------------------

  /** What the user said of a job, and how recently it was seen, survives; it may only be added to. */
  ghost predicate JobKept(a: Job, b: Job) {
    && b.canonicalKey == a.canonicalKey && b.firstSeen == a.firstSeen
    && a.lastSeen <= b.lastSeen && a.revision <= b.revision
    && b.titleEdited == a.titleEdited && b.companyEdited == a.companyEdited
    && (a.titleEdited.Some? ==> b.content.title == a.content.title)
    && (a.companyEdited.Some? ==> b.content.company == a.content.company)
    && (a.closedReason == Some(ByUser) ==>
          b.status == a.status && b.closedReason == a.closedReason && b.closedAt == a.closedAt)
    && (b.revision == a.revision ==> b.content == a.content)
  }

  /** Content and revision moved only for jobs whose own canonical key is among these. */
  ghost predicate ContentKept(a: Db, b: Db, keys: set<string>) {
    |a.jobs| <= |b.jobs|
    && forall j :: 0 <= j < |a.jobs| && a.jobs[j].canonicalKey !in keys ==>
         b.jobs[j].content == a.jobs[j].content && b.jobs[j].revision == a.jobs[j].revision
  }

  /** Jobs and rows are only added; a row never leaves its job or its key. */
  ghost predicate StoreKept(a: Db, b: Db) {
    && |a.jobs| <= |b.jobs| && (forall j :: 0 <= j < |a.jobs| ==> JobKept(a.jobs[j], b.jobs[j]))
    && |a.rows| <= |b.rows|
    && forall r :: 0 <= r < |a.rows| ==> b.rows[r].sourceKey == a.rows[r].sourceKey && b.rows[r].job == a.rows[r].job
  }

  lemma StoreKeptTransitive(a: Db, b: Db, c: Db)
    requires StoreKept(a, b) && StoreKept(b, c)
    ensures StoreKept(a, c)
  {
  }

  /** The row of a key that is present, after the key's posting is written. */
  lemma RowOf(db: Db, posting: Posting, origin: Origin, j: nat, r: nat)
    requires Valid(db) && r < |db.rows|
    requires db.rows[r].sourceKey == posting.sourceKey ==> j == db.rows[r].job
    ensures var rows := Put(db.rows, RowFor(posting, origin, j), SourceKeyOf);
            r < |rows| && rows[r].sourceKey == db.rows[r].sourceKey && rows[r].job == db.rows[r].job
            && (db.rows[r].sourceKey != posting.sourceKey ==> rows[r] == db.rows[r])
  {
  }

  /**
    Writing a posting never moves a row to another job, never loses what the user corrected or
    closed, never unsees a job, and touches content only under the posting's own canonical key.
  */
  lemma UpsertKeeps(web: Web, db: Db, posting: Posting, origin: Origin, seenAt: Time)
    requires Valid(db)
    ensures StoreKept(db, Upserted(web, db, posting, origin, seenAt))
    ensures ContentKept(db, Upserted(web, db, posting, origin, seenAt), {CanonicalKeyFor(web, posting, origin)})
  {
    var key := CanonicalKeyFor(web, posting, origin);
    LinkedOnlyByIdentity(web, db, posting, origin);
    var link := FindExisting(web, db, posting, key, origin);
    var j := if link.Some? then link.value.job else |db.jobs|;
    forall r | 0 <= r < |db.rows|
      ensures db.rows[r].sourceKey == posting.sourceKey ==> j == db.rows[r].job
    {
      if db.rows[r].sourceKey == posting.sourceKey {
        OneRowPerKey(db, posting.sourceKey, r);
      }
    }
    forall r | 0 <= r < |db.rows|
      ensures var rows := Put(db.rows, RowFor(posting, origin, j), SourceKeyOf);
              r < |rows| && rows[r].sourceKey == db.rows[r].sourceKey && rows[r].job == db.rows[r].job
    {
      RowOf(db, posting, origin, j, r);
    }
  }

  lemma OneRowPerKey(db: Db, key: string, r: nat)
    requires Valid(db) && r < |db.rows| && db.rows[r].sourceKey == key
    ensures IndexOf(db.rows, key, SourceKeyOf) == r
  {
  }

  /** The row is this posting's, says what it says, and holds no absence against it. */
  ghost predicate RowSays(row: Provenance, posting: Posting, origin: Origin) {
    && row.sourceKey == posting.sourceKey && row.source == origin.source
    && row.connector == origin.connector && row.externalId == posting.externalId
    && row.canonicalUrl == posting.canonicalUrl && row.applyUrl == posting.applyUrl
    && row.retrievedAt == posting.retrievedAt
    && row.missing == 0 && row.missingSince.None? && row.lastMissing.None?
  }

  /** A job that was there is reopened unless the user closed it, and counts as new content only what is. */
  ghost predicate RefreshSays(before: Job, job: Job, posting: Posting, seenAt: Time) {
    && job.revision == before.revision + (if job.content.hash != before.content.hash then 1 else 0)
    && (job.content.hash == before.content.hash ==> job.content == before.content)
    && (before.status.Active? || before.closedReason == Some(ByUser) ==>
          job.status == before.status && job.closedAt == before.closedAt && job.closedReason == before.closedReason)
    && (!before.status.Active? && job.status.Active? ==> job.closedAt.None? && job.closedReason.None?)
    && job.lastSeen in {before.lastSeen, seenAt}
    && job.lastFetched in {before.lastFetched, Some(posting.retrievedAt)}
  }

  /** A job the posting brought is open, the source's own words, and seen just now. */
  ghost predicate IsBrandNew(web: Web, job: Job, posting: Posting, origin: Origin, seenAt: Time) {
    && job.canonicalKey == CanonicalKeyFor(web, posting, origin) && job.content == posting.content && job.revision == 1
    && job.status.Active? && job.closedAt.None? && job.closedReason.None?
    && job.titleEdited.None? && job.companyEdited.None?
    && job.firstSeen == job.lastSeen == seenAt && job.lastFetched == Some(posting.retrievedAt)
  }

  /** What the store says of a posting just written, on the job its row belongs to. */
  ghost predicate Reflects(web: Web, before: Db, job: Job, j: nat, posting: Posting, origin: Origin, seenAt: Time) {
    && (if j < |before.jobs| then RefreshSays(before.jobs[j], job, posting, seenAt)
        else IsBrandNew(web, job, posting, origin, seenAt))
    && (job.status.Active? || job.closedReason == Some(ByUser))
    && seenAt <= job.lastSeen
    && job.lastFetched.Some? && posting.retrievedAt <= job.lastFetched.value
    && (job.canonicalKey == CanonicalKeyFor(web, posting, origin) ==> job.content.hash == posting.content.hash)
    && (j >= |before.jobs| || before.jobs[j].content.hash != job.content.hash ==>
          && job.content.body == posting.content.body
          && (job.titleEdited.None? ==> job.content.title == posting.content.title)
          && (job.companyEdited.None? ==> job.content.company == posting.content.company))
  }

  /**
    A written posting is there: one row of its own, present as far as closure goes, on a job that
    is open unless the user closed it, and that says what the posting says where its canonical
    key owns the job, but for what the user corrected.
  */
  lemma PostingIsReflected(web: Web, db: Db, posting: Posting, origin: Origin, seenAt: Time) returns (r: nat)
    requires Valid(db)
    ensures var db' := Upserted(web, db, posting, origin, seenAt);
            && r < |db'.rows| && db'.rows[r].job < |db'.jobs|
            && RowSays(db'.rows[r], posting, origin)
            && (forall q :: 0 <= q < |db'.rows| && q != r ==> q < |db.rows| && db'.rows[q] == db.rows[q])
            && (forall k :: 0 <= k < |db'.jobs| && k != db'.rows[r].job ==> k < |db.jobs| && db'.jobs[k] == db.jobs[k])
            && Reflects(web, db, db'.jobs[db'.rows[r].job], db'.rows[r].job, posting, origin, seenAt)
  {
    var link := FindExisting(web, db, posting, CanonicalKeyFor(web, posting, origin), origin);
    LinkedOnlyByIdentity(web, db, posting, origin);
    var j := if link.Some? then link.value.job else |db.jobs|;
    assert SourceKeyOf(RowFor(posting, origin, j)) == posting.sourceKey;
    r := IndexOf(db.rows, posting.sourceKey, SourceKeyOf);
  }

  datatype UpsertOutcome = UpsertOutcome(job: nat, created: bool, updated: bool, reopened: bool, linkedBy: Option<LinkReason>)

  /**
    The outcome of a write says what was done: where the posting's rows lead, whether the job is
    new, why an old one was found, and whether its content moved or it was reopened. No other job
    is touched.
  */
  ghost predicate Tells(web: Web, before: Db, after: Db, posting: Posting, origin: Origin, outcome: UpsertOutcome) {
    && outcome.job < |after.jobs| && |after.jobs| == |before.jobs| + (if outcome.created then 1 else 0)
    && (forall r :: 0 <= r < |after.rows| && after.rows[r].sourceKey == posting.sourceKey ==> after.rows[r].job == outcome.job)
    && (forall k :: 0 <= k < |before.jobs| && k != outcome.job ==> after.jobs[k] == before.jobs[k])
    && (outcome.created <==> outcome.linkedBy.None?)
    && (outcome.created <==> forall reason :: !Holds(web, before, posting, origin, reason))
    && (outcome.linkedBy.Some? ==> IsFirst(web, before, posting, origin, outcome.linkedBy.value))
    && (if outcome.created then !outcome.updated && !outcome.reopened && outcome.job == |before.jobs|
            && after.jobs[outcome.job].revision == 1
        else
          && outcome.job < |before.jobs|
          && after.jobs[outcome.job].revision == before.jobs[outcome.job].revision + (if outcome.updated then 1 else 0)
          && (outcome.reopened <==> after.jobs[outcome.job].status != before.jobs[outcome.job].status))
  }

  function OutcomeOf(web: Web, db: Db, posting: Posting, origin: Origin): UpsertOutcome {
    var key := CanonicalKeyFor(web, posting, origin);
    var link := FindExisting(web, db, posting, key, origin);
    if link.Some? && link.value.job < |db.jobs| then
      var job := db.jobs[link.value.job];
      UpsertOutcome(link.value.job, false, Changes(job, posting, key), Reopens(job), Some(link.value.reason))
    else UpsertOutcome(|db.jobs|, true, false, false, None)
  }

  lemma OutcomeTells(web: Web, db: Db, posting: Posting, origin: Origin, seenAt: Time)
    requires Valid(db)
    ensures Tells(web, db, Upserted(web, db, posting, origin, seenAt), posting, origin, OutcomeOf(web, db, posting, origin))
  {
    LinkIsFirstOfFour(web, db, posting, origin);
    var r := PostingIsReflected(web, db, posting, origin, seenAt);
    UpsertKeepsValid(web, db, posting, origin, seenAt);
  }

  // ---------------------------------------------------------------------------
  // The tables as the service updates them
  // ---------------------------------------------------------------------------

  class JobTables {
    var jobs: seq<Job>
    var rows: seq<Provenance>

    ghost function View(): Db
      reads this
    {
      Db(jobs, rows)
    }

    constructor ()
      ensures View() == Db([], [])
    {
      jobs, rows := [], [];
    }

    method FindExistingJob(web: Web, posting: Posting, key: string, origin: Origin) returns (found: Option<Link>)
      ensures found == FindExisting(web, View(), posting, key, origin)
      ensures Valid(View()) && key == CanonicalKeyFor(web, posting, origin) ==>
                && (found.None? <==> forall reason :: !Holds(web, View(), posting, origin, reason))
                && (found.Some? ==> found.value.job < |jobs| && IsFirst(web, View(), posting, origin, found.value.reason))
    {
      if Valid(View()) {
        LinkIsFirstOfFour(web, View(), posting, origin);
      }
      var r := IndexOf(rows, posting.sourceKey, SourceKeyOf);
      if r < |rows| {
        return Some(Link(rows[r].job, SameSourceKey));
      }
      var j := IndexOf(jobs, key, CanonicalKeyOf);
      if j < |jobs| {
        return Some(Link(j, SameCanonicalKey));
      }
      var destination := DestinationUrl(web, posting.applyUrl, posting.canonicalUrl);
      if destination.Some? && web.host(destination.value).Some? {
        var host := web.host(destination.value).value;
        for i := 0 to |rows|
          invariant forall k :: 0 <= k < i ==> !AppliesAt(web, rows[k], host, destination.value)
        {
          if AppliesAt(web, rows[i], host, destination.value) {
            return Some(Link(rows[i].job, SameApplyUrl));
          }
        }
      }
      if origin.connector in BOARD_CONNECTORS {
        for i := 0 to |rows|
          invariant forall k :: 0 <= k < i ==> !SameRequisitionAs(rows[k], posting, origin)
        {
          if SameRequisitionAs(rows[i], posting, origin) {
            return Some(Link(rows[i].job, SameRequisition));
          }
        }
      }
      found := None;
    }

    method UpsertNormalizedJob(web: Web, posting: Posting, origin: Origin, seenAt: Time) returns (outcome: UpsertOutcome)
      requires Valid(View())
      modifies this
      ensures View() == Upserted(web, old(View()), posting, origin, seenAt)
      ensures outcome == OutcomeOf(web, old(View()), posting, origin)
      ensures Tells(web, old(View()), View(), posting, origin, outcome)
    {
      OutcomeTells(web, View(), posting, origin, seenAt);
      var key := CanonicalKeyFor(web, posting, origin);
      var existing := FindExistingJob(web, posting, key, origin);
      LinkedOnlyByIdentity(web, View(), posting, origin);
      var id := |jobs|;
      var updated, reopened := false, false;
      if existing.None? {
        jobs := jobs + [NewJob(posting, key, seenAt)];
      } else {
        id := existing.value.job;
        var job := jobs[id];
        reopened := !job.status.Active? && job.closedReason != Some(ByUser);
        updated := job.canonicalKey == key && job.content.hash != posting.content.hash;
        if updated {
          job := job.(content := SourceContent(job, posting), revision := job.revision + 1);
        }
        if reopened {
          job := job.(status := Active, closedAt := None, closedReason := None);
        }
        var fetched := if job.lastFetched.Some? then Max(job.lastFetched.value, posting.retrievedAt) else posting.retrievedAt;
        jobs := jobs[id := job.(lastSeen := Max(job.lastSeen, seenAt), lastFetched := Some(fetched))];
      }
      rows := Put(rows, RowFor(posting, origin, id), SourceKeyOf);
      outcome := UpsertOutcome(id, existing.None?, updated, reopened,
        if existing.Some? then Some(existing.value.reason) else None);
    }
  }

  // ---------------------------------------------------------------------------
  // What the user changes
  // ---------------------------------------------------------------------------

  datatype Patch = Patch(close: bool, title: Option<string>, company: Option<string>)

  /** `PATCH /jobs/:id`, at the revision the user saw. */
  function Patched(job: Job, patch: Patch, now: Time): Job {
    var closing := patch.close && !job.status.Closed?;
    var retitled := patch.title.Some? && patch.title.value != job.content.title;
    var recompanied := patch.company.Some? && patch.company.value != job.content.company;
    job.(
      status := if closing then Closed else job.status,
      closedAt := if closing then Some(now) else job.closedAt,
      closedReason := if closing then Some(ByUser) else job.closedReason,
      content := job.content.(
        title := if retitled then patch.title.value else job.content.title,
        company := if recompanied then patch.company.value else job.content.company),
      titleEdited := if retitled then Some(now) else job.titleEdited,
      companyEdited := if recompanied then Some(now) else job.companyEdited,
      revision := job.revision + 1)
  }

  /**
    "Explicit user closure ... is not undone by the board still listing the posting." It is
    not, exactly when the job was not closed already: closing a closed job records nothing,
    and a job the board had lost is reopened when the posting reappears.
  */
  lemma UserClosureStandsIff(job: Job, patch: Patch, posting: Posting, key: string, now: Time, seenAt: Time)
    requires patch.close
    ensures Patched(job, patch, now).status.Closed?
    ensures Refreshed(Patched(job, patch, now), posting, key, seenAt).status.Closed?
       <==> !job.status.Closed? || job.closedReason == Some(ByUser)
  {
  }

  /** The user's words, and that they are the user's, are what the next fetch finds. */
  lemma CorrectionsSurvive(job: Job, patch: Patch, posting: Posting, key: string, now: Time, seenAt: Time)
    ensures var seen := Refreshed(Patched(job, patch, now), posting, key, seenAt);
            && (patch.title.Some? && patch.title.value != job.content.title ==> seen.content.title == patch.title.value)
            && (patch.company.Some? && patch.company.value != job.content.company ==>
                  seen.content.company == patch.company.value)
            && (Changes(job, posting, key) && job.titleEdited.None? && Patched(job, patch, now).titleEdited.None? ==>
                  seen.content.title == posting.content.title)
  {
  }
}
