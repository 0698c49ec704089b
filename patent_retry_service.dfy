/**
 * The ledger replay: every document number recorded as not parsed is turned
 * back into its detail URL, fetched again with a simpler page reader, saved
 * when new, and marked as parsed; and the per-entry decision of the image
 * back-fill.
 */
module PatentRetryService {
  import opened Wrappers
  import opened JavaText
  import opened PatentModel
  import opened PatentStorageService
  import opened GosReestrDetails
  import PatentService
  import PatentCategory

  // ---------------------------------------------------------------------------
  // Detail URLs
  // ---------------------------------------------------------------------------

  /** getCategory: the registry's URL segment for a category name; an unknown name gives "". */
  function CategorySegment(category: string): (segment: string)
    ensures '=' !in segment
  {
    if category == "Товарные знаки" then "Trademark"
    else if category == "Изобретения" then "Invention"
    else if category == "Полезные модели" then "UtilityModel"
    else if category == "Промышленные образцы" then "IndustrialDesign"
    else if category == "Селекционные достижения" then "SelectionAchievement"
    else ""
  }

  const UrlPrefix: string := "https://gosreestr.kazpatent.kz/"
  const DetailsPath: string := "/Details?docNumber="

  /** generatePatentUrl: the detail page of a document number in a category. */
  function GeneratePatentUrl(documentNumber: int, category: string): (url: string)
    ensures StartsWith(url, UrlPrefix)
  {
    UrlPrefix + CategorySegment(category) + DetailsPath + IntToString(documentNumber)
  }

  /**
   * The parser's document-number extraction undoes URL generation: the text
   * after the last '=' is the number's decimal form, and reading that back
   * gives the number.
   */
  lemma UrlRoundTrip(documentNumber: int, category: string)
    requires MinInt <= documentNumber <= MaxInt
    ensures DocNumberOf(GeneratePatentUrl(documentNumber, category)) == IntToString(documentNumber)
    ensures ParseInt(DocNumberOf(GeneratePatentUrl(documentNumber, category))) == Some(documentNumber)
  {
    var digits := IntToString(documentNumber);
    DecimalAvoids(documentNumber, '=');
    var front := UrlPrefix + CategorySegment(category) + "/Details?docNumber";
    assert GeneratePatentUrl(documentNumber, category) == front + ['='] + digits;
    AfterLastOfAppended(front, '=', digits);
    ParseIntOfIntToString(documentNumber);
  }

  /** Each category the registry defines has its own segment, except the well-known trade marks, which get none. */
  lemma SegmentsOfCategories(c: PatentCategory.Category, d: PatentCategory.Category)
    ensures CategorySegment(c.Name()) == "" <==> c == PatentCategory.WellKnownTrademark
    ensures c != d && CategorySegment(c.Name()) != "" ==> CategorySegment(c.Name()) != CategorySegment(d.Name())
  {
    assert "Общеизвестные товарные знаки" != "Товарные знаки" by {
      assert |"Общеизвестные товарные знаки"| != |"Товарные знаки"|;
    }
  }

  // ---------------------------------------------------------------------------
  // The replay's page reader
  // ---------------------------------------------------------------------------

  /**
   * One list item as the replay reads it: the cleaned label and the value
   * (the link target for the two link labels), or nothing when either is
   * empty. No label is routed to a typed setter.
   */
  function ReplayAttribute(item: DetailItem): (a: Option<Attribute>)
    ensures a.Some? ==> a.value.fieldLabel != []
  {
    var fieldLabel := NormalizeLabel(Trim(item.strongText));
    var value := Trim(item.spanText);
    if fieldLabel == [] || value == [] then None
    else Some(Attribute(fieldLabel, if IsLinkLabel(fieldLabel) then item.linkHref else value))
  }

  /**
   * The replay reads an item exactly as the parser does, except that a core
   * label becomes an extension attribute instead of a typed field.
   */
  lemma ReplayReadsLikeParser(item: DetailItem)
    ensures ReplayAttribute(item).None? <==> ItemEffectOf(item).Skip?
    ensures ItemEffectOf(item).Extra? ==> ReplayAttribute(item) == Some(ItemEffectOf(item).attribute)
    ensures ItemEffectOf(item).Core? ==>
              ReplayAttribute(item).Some? && IsCoreField(ReplayAttribute(item).value.fieldLabel) &&
              ReplayAttribute(item).value.value == ItemEffectOf(item).value
  {
    var fieldLabel := NormalizeLabel(Trim(item.strongText));
    if CoreProperty(fieldLabel).Some? {
      assert IsCoreField(fieldLabel);
    }
  }

  /** The extension list the replay builds, in page order. */
  function ReplayFields(items: seq<DetailItem>): (fields: seq<Attribute>)
    ensures |fields| <= |items|
    ensures forall k :: 0 <= k < |fields| ==> fields[k].fieldLabel != []
  {
    if items == [] then []
    else
      var front := ReplayFields(items[..|items| - 1]);
      match ReplayAttribute(items[|items| - 1])
      case None => front
      case Some(a) => front + [a]
  }

  /** The record the replay builds: category, site and the extension list, nothing else. */
  function ReplayRecord(category: string, items: seq<DetailItem>): Record {
    Blank.(category := Some(category), patentSite := Some(RegistrySite), additionalFields := Some(ReplayFields(items)))
  }

  /** Reading the items of a downloaded page in the replay. */
  method ReadReplayPage(category: string, page: DetailPage) returns (patent: Record)
    ensures patent == ReplayRecord(category, page.items)
  {
    var additionalFields: seq<Attribute> := [];
    for k := 0 to |page.items|
      invariant additionalFields == ReplayFields(page.items[..k])
    {
      assert page.items[..k + 1][..k] == page.items[..k];
      var a := ReplayAttribute(page.items[k]);
      if a.Some? {
        additionalFields := additionalFields + [a.value];
      }
    }
    assert page.items[..|page.items|] == page.items;
    patent := Blank.(category := Some(category), patentSite := Some(RegistrySite), additionalFields := Some(additionalFields));
  }

  /**
   * A replayed record carries neither document number nor status: the
   * duplicate check never recognises it, whatever the table holds, and the
   * validator would reject it.
   */
  lemma ReplayRecordIsNeverDuplicate(category: string, items: seq<DetailItem>, rows: seq<Record>)
    ensures PatentService.IsPatentExists(Some(ReplayRecord(category, items)), rows) == Success(false)
    ensures ReplayRecord(category, items).status.None?
  {
    PatentService.NoNumberIsNeverDuplicate(ReplayRecord(category, items), rows);
  }

  // ---------------------------------------------------------------------------
  // The replay's fetch loop
  // ---------------------------------------------------------------------------

  /**
   * The replay's retry loop: a timeout costs one of the attempts, a status
   * other than 500 costs nothing, an HTTP 500 or other I/O error gives null;
   * it writes nothing to the ledger and its page reader cannot throw.
   */
  function ReplayFetchRun(category: string, attempts: int, outcomes: seq<FetchOutcome>): (r: FetchResult)
    ensures !r.DetailThrew?
    ensures r.Detail? ==>
              r.patent.securityDocNumber.None? && r.patent.registrationNumber.None? && r.patent.status.None? &&
              r.patent.category == Some(category) && r.patent.additionalFields.Some?
    decreases |outcomes|
  {
    if attempts <= 0 then NoDetail
    else if outcomes == [] then FetchUnfinished
    else
      match outcomes[0]
      case SocketTimeout => ReplayFetchRun(category, attempts - 1, outcomes[1..])
      case HttpStatus(code) =>
        if code == 500 then NoDetail else ReplayFetchRun(category, attempts, outcomes[1..])
      case IoFailure => NoDetail
      case Downloaded(page) => Detail(ReplayRecord(category, page.items))
  }

  /**
   * The replay's fetch ends the way the parser's fetch does on the same
   * connection outcomes; where the parser's page reader throws, the replay's
   * still yields a record.
   */
  lemma {:induction false} ReplayFetchMirrorsParser(docNumber: string, category: string, attempts: int, outcomes: seq<FetchOutcome>)
    ensures var r := ReplayFetchRun(category, attempts, outcomes);
            var f := FetchRun(docNumber, category, attempts, outcomes).result;
            (r.FetchUnfinished? <==> f.FetchUnfinished?) && (r.NoDetail? <==> f.NoDetail?) &&
            (r.Detail? <==> f.Detail? || f.DetailThrew?)
    decreases |outcomes|
  {
    if attempts > 0 && outcomes != [] {
      match outcomes[0]
      case SocketTimeout => ReplayFetchMirrorsParser(docNumber, category, attempts - 1, outcomes[1..]);
      case HttpStatus(code) =>
        if code != 500 {
          ReplayFetchMirrorsParser(docNumber, category, attempts, outcomes[1..]);
        }
      case IoFailure =>
      case Downloaded(page) =>
    }
  }

  /** One connection outcome of the replay's fetch, with attempts left. */
  lemma ReplayFetchNext(category: string, attempts: int, outcomes: seq<FetchOutcome>, i: nat)
    requires attempts > 0 && i < |outcomes|
    ensures outcomes[i].SocketTimeout? ==>
              ReplayFetchRun(category, attempts, outcomes[i..]) == ReplayFetchRun(category, attempts - 1, outcomes[i + 1..])
    ensures outcomes[i].HttpStatus? && outcomes[i].code != 500 ==>
              ReplayFetchRun(category, attempts, outcomes[i..]) == ReplayFetchRun(category, attempts, outcomes[i + 1..])
    ensures (outcomes[i].HttpStatus? && outcomes[i].code == 500) || outcomes[i].IoFailure? ==>
              ReplayFetchRun(category, attempts, outcomes[i..]) == NoDetail
    ensures outcomes[i].Downloaded? ==>
              ReplayFetchRun(category, attempts, outcomes[i..]) == Detail(ReplayRecord(category, outcomes[i].page.items))
  {
    assert outcomes[i..][0] == outcomes[i] && outcomes[i..][1..] == outcomes[i + 1..];
  }

  /** fetchPatentDetails of the replay, over the connection outcomes in order. */
  method ReplayFetchPatentDetails(category: string, outcomes: seq<FetchOutcome>) returns (r: FetchResult)
    ensures r == ReplayFetchRun(category, FetchAttempts, outcomes)
  {
    var attempts := FetchAttempts;
    var i := 0;
    assert outcomes[i..] == outcomes;
    while attempts > 0
      invariant 0 <= i <= |outcomes|
      invariant ReplayFetchRun(category, FetchAttempts, outcomes) == ReplayFetchRun(category, attempts, outcomes[i..])
      decreases |outcomes| - i
    {
      if i == |outcomes| {
        return FetchUnfinished;
      }
      var outcome := outcomes[i];
      ReplayFetchNext(category, attempts, outcomes, i);
      match outcome {
        case SocketTimeout =>
          attempts := attempts - 1;
        case HttpStatus(code) =>
          if code == 500 {
            return NoDetail;
          }
        case IoFailure =>
          return NoDetail;
        case Downloaded(page) =>
          var patent := ReadReplayPage(category, page);
          return Detail(patent);
      }
      i := i + 1;
    }
    r := NoDetail;
  }

  // ---------------------------------------------------------------------------
  // Replaying the ledger
  // ---------------------------------------------------------------------------

  /** How the replay ends: every pending entry seen, a document number that is not a number, or a fetch that never ends. */
  datatype ReplayEnd = ReplayDone | ReplayAborted | ReplayHung

  /** The ledger and the patent table after the replay, and how it ended. */
  datatype Replay = Replay(entries: seq<LedgerEntry>, rows: seq<Record>, end: ReplayEnd)

  /** What one pending entry leaves behind: the replay stops, or goes on with this ledger and table. */
  datatype EntryStep = Halted(end: ReplayEnd) | Continued(entries: seq<LedgerEntry>, rows: seq<Record>)

  /** setParsed(true) and save on entry `i`; an unreachable database leaves it as it was. */
  function Marked(entries: seq<LedgerEntry>, i: nat, available: bool): (r: seq<LedgerEntry>)
    requires i < |entries|
    ensures |r| == |entries|
  {
    if available then entries[i := entries[i].(isParsed := true)] else entries
  }

  /** The keys of two ledgers agree position by position. */
  predicate SameKeys(a: seq<LedgerEntry>, b: seq<LedgerEntry>) {
    |a| == |b| &&
    forall i :: 0 <= i < |a| ==> a[i].category == b[i].category && a[i].documentNumber == b[i].documentNumber
  }

  /** No entry of `a` that was parsed is unparsed in `b`. */
  predicate FlagsOnlyRise(a: seq<LedgerEntry>, b: seq<LedgerEntry>)
    requires |a| == |b|
  {
    forall i :: 0 <= i < |a| && a[i].isParsed ==> b[i].isParsed
  }

  /** `after` is `before` with records appended that the duplicate check did not recognise. */
  predicate GrowsByNewRecords(before: seq<Record>, after: seq<Record>) {
    |before| <= |after| && after[..|before|] == before &&
    forall j :: |before| <= j < |after| ==> PatentService.IsPatentExists(Some(after[j]), after[..j]) == Success(false)
  }

  /** The URL of a ledger entry, when its document number reads as an int. */
  function EntryUrl(e: LedgerEntry): Option<string> {
    match ParseInt(e.documentNumber)
    case None => None
    case Some(n) => Some(GeneratePatentUrl(n, e.category))
  }

  /**
   * The loop body of retryFailedPatents for the ledger entry at position `i`,
   * fetched as the k-th fetch: `fetch(k, url)` is how that fetch's
   * connections go. A document number that is not an int throws outside the
   * per-entry handler and ends the whole replay; a record the duplicate check
   * throws on is skipped.
   */
  function ReplayEntryStep(i: nat, k: nat, fetch: (nat, string) -> seq<FetchOutcome>,
                           entries: seq<LedgerEntry>, rows: seq<Record>, available: bool): (s: EntryStep)
    requires i < |entries|
    ensures s.Continued? ==> |s.entries| == |entries|
  {
    var e := entries[i];
    match EntryUrl(e)
    case None => Halted(ReplayAborted)
    case Some(url) =>
      match ReplayFetchRun(e.category, FetchAttempts, fetch(k, url))
      case FetchUnfinished => Halted(ReplayHung)
      case Detail(p) =>
        (match PatentService.IsPatentExists(Some(p), rows)
         case Success(true) => Continued(Marked(entries, i, available), rows)
         case Success(false) => Continued(Marked(entries, i, available), rows + [p])
         case Failure(_) => Continued(entries, rows))
      case _ => Continued(entries, rows)
  }

  /**
   * A fetched record is always new to the table, so it is always saved, and
   * the entry marked, whatever the table holds.
   */
  lemma EveryFetchedRecordIsSaved(i: nat, k: nat, fetch: (nat, string) -> seq<FetchOutcome>,
                                  entries: seq<LedgerEntry>, rows: seq<Record>, available: bool)
    requires i < |entries| && EntryUrl(entries[i]).Some?
    requires ReplayFetchRun(entries[i].category, FetchAttempts, fetch(k, EntryUrl(entries[i]).value)).Detail?
    ensures ReplayEntryStep(i, k, fetch, entries, rows, available) ==
            Continued(Marked(entries, i, available),
                      rows + [ReplayFetchRun(entries[i].category, FetchAttempts, fetch(k, EntryUrl(entries[i]).value)).patent])
  {
    var p := ReplayFetchRun(entries[i].category, FetchAttempts, fetch(k, EntryUrl(entries[i]).value)).patent;
    PatentService.NoNumberIsNeverDuplicate(p, rows);
  }

  /** retryFailedPatents from the k-th pending entry on. */
  function ReplayRun(pending: seq<nat>, k: nat, fetch: (nat, string) -> seq<FetchOutcome>,
                     entries: seq<LedgerEntry>, rows: seq<Record>, available: bool): Replay
    requires forall j :: 0 <= j < |pending| ==> pending[j] < |entries|
    decreases |pending| - k
  {
    if k >= |pending| then Replay(entries, rows, ReplayDone)
    else
      match ReplayEntryStep(pending[k], k, fetch, entries, rows, available)
      case Halted(end) => Replay(entries, rows, end)
      case Continued(entries', rows') => ReplayRun(pending, k + 1, fetch, entries', rows', available)
  }

  /** The replay as a whole: the unparsed entries, as listed when it starts. */
  function RetryRun(fetch: (nat, string) -> seq<FetchOutcome>, entries: seq<LedgerEntry>, rows: seq<Record>, available: bool): Replay {
    ReplayRun(Unparsed(entries), 0, fetch, entries, rows, available)
  }

  /**
   * One entry of the replay keeps every key, lowers no flag, raises only its
   * own and only after a fetch that gave a record, and adds at most that
   * record to the table, and only when the duplicate check did not know it.
   */
  lemma EntryStepKeepsLedger(i: nat, k: nat, fetch: (nat, string) -> seq<FetchOutcome>,
                             entries: seq<LedgerEntry>, rows: seq<Record>, available: bool)
    requires i < |entries|
    ensures var s := ReplayEntryStep(i, k, fetch, entries, rows, available);
            s.Continued? ==>
              SameKeys(entries, s.entries) && FlagsOnlyRise(entries, s.entries) && GrowsByNewRecords(rows, s.rows) &&
              forall j :: 0 <= j < |entries| && j != i ==> s.entries[j] == entries[j]
    ensures var s := ReplayEntryStep(i, k, fetch, entries, rows, available);
            s.Continued? && !entries[i].isParsed && s.entries[i].isParsed ==>
              EntryUrl(entries[i]).Some? && ReplayFetchRun(entries[i].category, FetchAttempts, fetch(k, EntryUrl(entries[i]).value)).Detail?
  {
    var s := ReplayEntryStep(i, k, fetch, entries, rows, available);
    if s.Continued? && s.rows != rows {
      assert s.rows[..|rows|] == rows;
    }
  }

  lemma SameKeysTransitive(a: seq<LedgerEntry>, b: seq<LedgerEntry>, c: seq<LedgerEntry>)
    requires SameKeys(a, b) && SameKeys(b, c)
    ensures SameKeys(a, c)
  {
  }

  lemma GrowsByNewRecordsTransitive(a: seq<Record>, b: seq<Record>, c: seq<Record>)
    requires GrowsByNewRecords(a, b) && GrowsByNewRecords(b, c)
    ensures GrowsByNewRecords(a, c)
  {
    assert c[..|a|] == c[..|b|][..|a|];
    forall j | |a| <= j < |c|
      ensures PatentService.IsPatentExists(Some(c[j]), c[..j]) == Success(false)
    {
      if j < |b| {
        assert c[j] == b[j] && c[..j] == b[..j];
      }
    }
  }

  lemma SameKeysKeepUniqueness(a: seq<LedgerEntry>, b: seq<LedgerEntry>)
    requires SameKeys(a, b) && UniqueKeys(a)
    ensures UniqueKeys(b)
  {
    forall i, j | 0 <= i < j < |b|
      ensures b[i].category != b[j].category || b[i].documentNumber != b[j].documentNumber
    {
      assert a[i].category == b[i].category && a[i].documentNumber == b[i].documentNumber;
      assert a[j].category == b[j].category && a[j].documentNumber == b[j].documentNumber;
    }
  }

  /** What the replay keeps between two states of the ledger and the table. */
  predicate KeepsLedger(entries: seq<LedgerEntry>, rows: seq<Record>, entries': seq<LedgerEntry>, rows': seq<Record>) {
    SameKeys(entries, entries') && FlagsOnlyRise(entries, entries') && GrowsByNewRecords(rows, rows')
  }

  lemma KeepsLedgerTransitive(e0: seq<LedgerEntry>, r0: seq<Record>, e1: seq<LedgerEntry>, r1: seq<Record>,
                              e2: seq<LedgerEntry>, r2: seq<Record>)
    requires KeepsLedger(e0, r0, e1, r1) && KeepsLedger(e1, r1, e2, r2)
    ensures KeepsLedger(e0, r0, e2, r2)
  {
    SameKeysTransitive(e0, e1, e2);
    GrowsByNewRecordsTransitive(r0, r1, r2);
  }

  /** Nothing changed keeps everything. */
  lemma KeepsLedgerReflexive(entries: seq<LedgerEntry>, rows: seq<Record>)
    ensures KeepsLedger(entries, rows, entries, rows)
  {
    assert rows[..|rows|] == rows;
  }

  /** The replay one entry further on, when that entry does not stop it. */
  lemma ReplayRunStep(pending: seq<nat>, k: nat, fetch: (nat, string) -> seq<FetchOutcome>,
                      entries: seq<LedgerEntry>, rows: seq<Record>, available: bool, s: EntryStep)
    requires forall j :: 0 <= j < |pending| ==> pending[j] < |entries|
    requires k < |pending| && s == ReplayEntryStep(pending[k], k, fetch, entries, rows, available)
    ensures s.Halted? ==> ReplayRun(pending, k, fetch, entries, rows, available) == Replay(entries, rows, s.end)
    ensures s.Continued? ==>
              ReplayRun(pending, k, fetch, entries, rows, available) == ReplayRun(pending, k + 1, fetch, s.entries, s.rows, available)
  {
  }

  /**
   * The replay never adds or drops a ledger entry, never changes a key, and
   * never sets a flag back to false; the table only grows, and only by
   * records the duplicate check did not recognise.
   */
  lemma {:induction false} ReplayOnlyRaisesFlags(pending: seq<nat>, k: nat, fetch: (nat, string) -> seq<FetchOutcome>,
                                                 entries: seq<LedgerEntry>, rows: seq<Record>, available: bool)
    requires forall j :: 0 <= j < |pending| ==> pending[j] < |entries|
    ensures var r := ReplayRun(pending, k, fetch, entries, rows, available);
            KeepsLedger(entries, rows, r.entries, r.rows)
    decreases |pending| - k
  {
    KeepsLedgerReflexive(entries, rows);
    if k < |pending| {
      var s := ReplayEntryStep(pending[k], k, fetch, entries, rows, available);
      ReplayRunStep(pending, k, fetch, entries, rows, available, s);
      if s.Continued? {
        EntryStepKeepsLedger(pending[k], k, fetch, entries, rows, available);
        assert KeepsLedger(entries, rows, s.entries, s.rows);
        ReplayOnlyRaisesFlags(pending, k + 1, fetch, s.entries, s.rows, available);
        var r := ReplayRun(pending, k + 1, fetch, s.entries, s.rows, available);
        KeepsLedgerTransitive(entries, rows, s.entries, s.rows, r.entries, r.rows);
      }
    }
  }

  /**
   * An entry the replay marks as parsed was pending and one of its fetches
   * gave a record: a fetch that gives null, or is cut short, leaves it
   * unparsed.
   */
  lemma {:induction false} ParsedOnlyAfterFetch(pending: seq<nat>, k: nat, fetch: (nat, string) -> seq<FetchOutcome>,
                                                entries: seq<LedgerEntry>, rows: seq<Record>, available: bool, i: nat)
    requires forall j :: 0 <= j < |pending| ==> pending[j] < |entries|
    requires i < |entries| && !entries[i].isParsed
    requires i < |ReplayRun(pending, k, fetch, entries, rows, available).entries|
    requires ReplayRun(pending, k, fetch, entries, rows, available).entries[i].isParsed
    ensures exists j :: k <= j < |pending| && pending[j] == i && EntryUrl(entries[i]).Some? &&
                        ReplayFetchRun(entries[i].category, FetchAttempts, fetch(j, EntryUrl(entries[i]).value)).Detail?
    decreases |pending| - k
  {
    var s := ReplayEntryStep(pending[k], k, fetch, entries, rows, available);
    EntryStepKeepsLedger(pending[k], k, fetch, entries, rows, available);
    if s.Continued? {
      if s.entries[i].isParsed {
        assert pending[k] == i;
      } else {
        ParsedOnlyAfterFetch(pending, k + 1, fetch, s.entries, s.rows, available, i);
        var j :| k + 1 <= j < |pending| && pending[j] == i && EntryUrl(s.entries[i]).Some? &&
                 ReplayFetchRun(s.entries[i].category, FetchAttempts, fetch(j, EntryUrl(s.entries[i]).value)).Detail?;
        assert s.entries[i].category == entries[i].category && s.entries[i].documentNumber == entries[i].documentNumber;
        assert EntryUrl(s.entries[i]) == EntryUrl(entries[i]);
      }
    }
  }

  /** A ledger with unique keys keeps them through the replay. */
  lemma ReplayKeepsKeysUnique(fetch: (nat, string) -> seq<FetchOutcome>, entries: seq<LedgerEntry>, rows: seq<Record>, available: bool)
    requires UniqueKeys(entries)
    ensures UniqueKeys(RetryRun(fetch, entries, rows, available).entries)
  {
    ReplayOnlyRaisesFlags(Unparsed(entries), 0, fetch, entries, rows, available);
    var r := RetryRun(fetch, entries, rows, available);
    assert KeepsLedger(entries, rows, r.entries, r.rows);
    SameKeysKeepUniqueness(entries, RetryRun(fetch, entries, rows, available).entries);
  }

  /** retryFailedPatents over the ledger behind `ledger` and the patent table behind `repo`. */
  method RetryFailedPatents(fetch: (nat, string) -> seq<FetchOutcome>, ledger: DocNumberStore, repo: PatentService.PatentRepository)
    returns (end: ReplayEnd)
    requires ledger.Valid() && repo.Valid()
    modifies ledger`entries, repo`rows
    ensures ledger.Valid() && repo.Valid()
    ensures Replay(ledger.entries, repo.rows, end) == RetryRun(fetch, old(ledger.entries), old(repo.rows), ledger.available)
  {
    ghost var available, start, startRows := ledger.available, ledger.entries, repo.rows;
    var failedPatents := Unparsed(ledger.entries);
    for k := 0 to |failedPatents|
      invariant ledger.Valid() && repo.Valid() && ledger.available == available && |ledger.entries| == |start|
      invariant ReplayRun(failedPatents, 0, fetch, start, startRows, available) ==
                ReplayRun(failedPatents, k, fetch, ledger.entries, repo.rows, available)
    {
      ghost var entries, rows := ledger.entries, repo.rows;
      var step := ReplayEntry(failedPatents[k], k, fetch, ledger, repo);
      if step.Halted? {
        end := step.end;
        assert ledger.entries == entries && repo.rows == rows;
        return;
      }
    }
    end := ReplayDone;
  }

  /**
   * One pending entry of the replay, against the ledger and the table; the
   * result tells whether the replay stops, and with the new state otherwise.
   */
  method ReplayEntry(i: nat, k: nat, fetch: (nat, string) -> seq<FetchOutcome>,
                     ledger: DocNumberStore, repo: PatentService.PatentRepository)
    returns (step: EntryStep)
    requires ledger.Valid() && repo.Valid() && i < |ledger.entries|
    modifies ledger`entries, repo`rows
    ensures ledger.Valid() && repo.Valid()
    ensures step == ReplayEntryStep(i, k, fetch, old(ledger.entries), old(repo.rows), ledger.available)
    ensures step.Halted? ==> ledger.entries == old(ledger.entries) && repo.rows == old(repo.rows)
    ensures step.Continued? ==> ledger.entries == step.entries && repo.rows == step.rows
  {
    var failedPatent := ledger.entries[i];
    var documentNumber := ParseInt(failedPatent.documentNumber);
    if documentNumber.None? {
      return Halted(ReplayAborted);
    }
    var url := GeneratePatentUrl(documentNumber.value, failedPatent.category);
    var patent := ReplayFetchPatentDetails(failedPatent.category, fetch(k, url));
    if patent.FetchUnfinished? {
      return Halted(ReplayHung);
    }
    if patent.Detail? {
      var known := PatentService.IsPatentExists(Some(patent.patent), repo.rows);
      if known.Success? {
        // a record the table already holds is only marked; a new one is saved first
        if known == Success(false) {
          var _ := repo.SavePatent(patent.patent);
        }
        var _ := ledger.MarkParsed(i);
      }
    }
    step := Continued(ledger.entries, repo.rows);
  }

  // ---------------------------------------------------------------------------
  // Image back-fill
  // ---------------------------------------------------------------------------

  /** What processPatentImage does for one ledger entry. */
  datatype ImageOutcome =
    | ImageAborted                            // the document number is not an int
    | NoImage                                 // the screenshot gave null
    | ImageSaved(patentId: int, image: string)
    | ImageLookupFailed                       // no record, or several, with that document number

  /** The positions of the records with this document number. */
  function RowsWithDocNumber(rows: seq<Record>, docNumber: string): (r: seq<nat>)
    ensures forall k :: 0 <= k < |r| ==> r[k] < |rows| && rows[r[k]].docNumber == Some(docNumber)
    ensures forall j :: 0 <= j < |rows| && rows[j].docNumber == Some(docNumber) ==> j in r
  {
    if rows == [] then []
    else
      var front := RowsWithDocNumber(rows[..|rows| - 1], docNumber);
      assert forall k :: 0 <= k < |front| ==> rows[front[k]] == rows[..|rows| - 1][front[k]];
      if rows[|rows| - 1].docNumber == Some(docNumber) then front + [|rows| - 1] else front
  }

  /**
   * processPatentImage: the screenshot of the entry's detail page, taken
   * through `capture`, is attached as "imageBase64" to the one record with
   * that document number; a missing or ambiguous record is an exception the
   * handler swallows.
   */
  function ImageDecision(entry: LedgerEntry, capture: string -> Option<string>, rows: seq<Record>): (r: ImageOutcome)
    ensures r.ImageSaved? ==>
              1 <= r.patentId <= |rows| && rows[r.patentId - 1].docNumber == Some(entry.documentNumber) &&
              EntryUrl(entry).Some? && capture(EntryUrl(entry).value) == Some(r.image)
  {
    match EntryUrl(entry)
    case None => ImageAborted
    case Some(url) =>
      match capture(url)
      case None => NoImage
      case Some(image) =>
        var found := RowsWithDocNumber(rows, entry.documentNumber);
        if |found| == 1 then ImageSaved(found[0] + 1, image) else ImageLookupFailed
  }

  /** An image is attached only when exactly one stored record has the entry's document number. */
  lemma ImageNeedsUniqueRecord(entry: LedgerEntry, capture: string -> Option<string>, rows: seq<Record>, a: nat, b: nat)
    requires a < b < |rows| && rows[a].docNumber == Some(entry.documentNumber) && rows[b].docNumber == Some(entry.documentNumber)
    ensures !ImageDecision(entry, capture, rows).ImageSaved?
  {
    var found := RowsWithDocNumber(rows, entry.documentNumber);
    var i :| 0 <= i < |found| && found[i] == a;
    var j :| 0 <= j < |found| && found[j] == b;
    assert i != j;
  }

  /** processPatentImage against the patent table; the image is one new owned field. */
  method ProcessPatentImage(entry: LedgerEntry, capture: string -> Option<string>, repo: PatentService.PatentRepository)
    returns (outcome: ImageOutcome)
    requires repo.Valid()
    modifies repo`fields
    ensures repo.Valid()
    ensures outcome == ImageDecision(entry, capture, repo.rows)
    ensures repo.fields ==
            if outcome.ImageSaved?
            then old(repo.fields) + [PatentService.OwnedField(outcome.patentId, Attribute("imageBase64", outcome.image))]
            else old(repo.fields)
  {
    var documentNumber := ParseInt(entry.documentNumber);
    if documentNumber.None? {
      return ImageAborted;
    }
    var url := GeneratePatentUrl(documentNumber.value, entry.category);
    var imageBase64 := capture(url);
    if imageBase64.None? {
      return NoImage;
    }
    var found := RowsWithDocNumber(repo.rows, entry.documentNumber);
    if |found| != 1 {
      return ImageLookupFailed;
    }
    outcome := ImageSaved(found[0] + 1, imageBase64.value);
    assert outcome == ImageDecision(entry, capture, repo.rows);
    var saved := repo.SaveAdditionalField(outcome.patentId, "imageBase64", outcome.image);
  }
}
