/**
 * The registry parser's search-result cards: the regular-expression field
 * readers over a card's text, the record built from a card, the collection
 * of the cards with its stale-reference retries, and the per-card loop that
 * fetches, merges, deduplicates, validates and records each patent.
 */
module GosReestrCards {
  import opened Wrappers
  import opened JavaText
  import opened LocalDates
  import opened PatentModel
  import opened PatentStorageService
  import opened GosReestrDetails
  import PatentService
  import PatentValidator
  import TransliterationUtil

  // ---------------------------------------------------------------------------
  // Reading fields off the card text
  // ---------------------------------------------------------------------------

  /** One optional or repeated piece of the pattern after a field's key. */
  datatype Token =
    | OptionalChar(c: char)   // `c?`
    | Spaces                  // ` *` (the "\s" of a Java string literal is a plain space)
    | Whitespace              // the regular-expression class `\s*`

  /** The characters of the regular-expression class `\s`. */
  predicate IsRegexSpace(c: char) {
    c == ' ' || c == '\t' || c == '\n' || c == '\U{B}' || c == '\U{C}' || c == '\r'
  }

  predicate TokenRepeats(t: Token, c: char) {
    (t.Spaces? && c == ' ') || (t.Whitespace? && IsRegexSpace(c))
  }

  /** What is left after one repeated token has taken every character it can. */
  function SkipRun(s: string, t: Token): (r: string)
    ensures |r| <= |s| && r == s[|s| - |r|..]
    ensures r == [] || !TokenRepeats(t, r[0])
    decreases |s|
  {
    if s != [] && TokenRepeats(t, s[0]) then SkipRun(s[1..], t) else s
  }

  /** What is left after one token has matched as much as it can. */
  function SkipToken(s: string, t: Token): (r: string)
    ensures |r| <= |s| && r == s[|s| - |r|..]
  {
    match t
    case OptionalChar(c) => if s != [] && s[0] == c then s[1..] else s
    case _ => SkipRun(s, t)
  }

  /** The tokens matched greedily, left to right; what remains is the text after them. */
  function SkipTokens(s: string, tokens: seq<Token>): (r: string)
    ensures |r| <= |s| && r == s[|s| - |r|..]
    decreases |tokens|
  {
    if tokens == [] then s else SkipTokens(SkipToken(s, tokens[0]), tokens[1..])
  }

  /** The text up to the first line terminator: what `(.*)` captures. */
  function RestOfLine(s: string): (r: string)
    ensures |r| <= |s| && r == s[..|r|]
    ensures forall k :: 0 <= k < |r| ==> !IsLineTerminator(r[k])
    ensures |r| < |s| ==> IsLineTerminator(s[|r|])
    decreases |s|
  {
    if s == [] || IsLineTerminator(s[0]) then [] else [s[0]] + RestOfLine(s[1..])
  }

  /** The tail every text field's pattern shares: `:? *:? *`. */
  const FieldTail: seq<Token> := [OptionalChar(':'), Spaces, OptionalChar(':'), Spaces]
  /** The date field's tail: `:?\s*:?\s*`. */
  const DateTail: seq<Token> := [OptionalChar(':'), Whitespace, OptionalChar(':'), Whitespace]

  const TitleKey: string := "Название"
  const BulletinNumberKey: string := "Номер бюллетеня"
  const BulletinDateKey: string := "Дата бюллетеня"
  const SortNameKey: string := "Наименование сорта, породы"
  /** `Автор\(-ы\)?`: the literal part, the closing bracket being optional. */
  const AuthorsKey: string := "Автор(-ы"
  const AuthorsTail: seq<Token> := [OptionalChar(')')] + FieldTail

  /**
   * getFieldValue: the first occurrence of the key, the optional tail taken
   * greedily, then the rest of that line, trimmed; null when the key never
   * occurs.
   */
  function GetFieldValue(text: string, key: string, tail: seq<Token>): (r: Option<string>)
    ensures r.None? <==> forall k :: !OccursAt(text, key, k)
    ensures r.Some? ==> forall k :: 0 <= k < |r.value| ==> !IsLineTerminator(r.value[k])
    ensures r.Some? && r.value != [] ==> !IsTrimmed(r.value[0]) && !IsTrimmed(r.value[|r.value| - 1])
  {
    var at := IndexOf(text, key);
    if at < 0 then None
    else
      var line := RestOfLine(SkipTokens(text[at + |key|..], tail));
      TrimmedLineStaysOnLine(line);
      Some(Trim(line))
  }

  lemma TrimmedLineStaysOnLine(line: string)
    requires forall k :: 0 <= k < |line| ==> !IsLineTerminator(line[k])
    ensures forall k :: 0 <= k < |Trim(line)| ==> !IsLineTerminator(Trim(line)[k])
  {
    var r := Trim(line);
    var i :| OccursAt(line, r, i);
    assert forall k :: 0 <= k < |r| ==> r[k] == line[i + k];
  }

  /** The first position from `from` on where the key is followed, after its tail, by dd.dd.dddd. */
  function DateTextFrom(text: string, key: string, from: nat): (r: Option<string>)
    ensures r.Some? ==> IsDottedShape(r.value)
    decreases |text| + 1 - from
  {
    var at := IndexOfFrom(text, key, from);
    if at < 0 then None
    else
      var rest := SkipTokens(text[at + |key|..], DateTail);
      if |rest| >= 10 && IsDottedShape(rest[..10]) then Some(rest[..10])
      else if at + 1 > |text| then None
      else DateTextFrom(text, key, at + 1)
  }

  /**
   * getDateField: the first match of the key, its tail and a dd.dd.dddd
   * group, parsed as dd.MM.yyyy; a group the formatter rejects gives null.
   */
  function GetDateField(text: string, key: string): (r: Option<Date>)
    ensures r.Some? ==> IsValidDate(r.value) && 1 <= r.value.year <= 9999
    ensures r.Some? ==> DateTextFrom(text, key, 0).Some? && ParseDotted(DateTextFrom(text, key, 0).value) == r
  {
    match DateTextFrom(text, key, 0)
    case None => None
    case Some(d) => ParseDotted(d)
  }

  /** `:? *:? *` (or its `\s*` variant) takes exactly ": " before a value that starts with neither. */
  lemma ColonSpaceSkipped(t: string, tail: seq<Token>)
    requires t == [] || (!IsTrimmed(t[0]) && t[0] != ':')
    requires tail == FieldTail || tail == DateTail
    ensures SkipTokens(": " + t, tail) == t
  {
    if tail == FieldTail {
      ColonRunSkipped(t, Spaces);
    } else {
      ColonRunSkipped(t, Whitespace);
    }
  }

  /** `:?` then a run of spaces, twice, takes exactly ": ". */
  lemma ColonRunSkipped(t: string, rep: Token)
    requires t == [] || (!IsTrimmed(t[0]) && t[0] != ':')
    requires rep == Spaces || rep == Whitespace
    ensures SkipTokens(": " + t, [OptionalChar(':'), rep, OptionalChar(':'), rep]) == t
  {
    var colon := OptionalChar(':');
    assert (": " + t)[1..] == " " + t;
    assert SkipToken(": " + t, colon) == " " + t;
    RunStopsAtValue(t, rep);
    FourTokens(": " + t, colon, rep, colon, rep);
    TwoTokens(t, colon, rep);
  }

  lemma TwoTokens(s: string, a: Token, b: Token)
    ensures SkipTokens(s, [a, b]) == SkipToken(SkipToken(s, a), b)
  {
    var s1 := SkipToken(s, a);
    assert [a, b][1..] == [b];
    assert SkipTokens(s, [a, b]) == SkipTokens(s1, [b]);
    assert [b][1..] == [];
    assert SkipTokens(s1, [b]) == SkipTokens(SkipToken(s1, b), []);
  }

  lemma FourTokens(s: string, a: Token, b: Token, c: Token, d: Token)
    ensures SkipTokens(s, [a, b, c, d]) == SkipTokens(SkipToken(SkipToken(s, a), b), [c, d])
  {
    assert [a, b, c, d][1..] == [b, c, d];
    assert [b, c, d][1..] == [c, d];
  }

  /** A space run takes the one space before a value that does not start with a character it repeats. */
  lemma RunStopsAtValue(t: string, rep: Token)
    requires TokenRepeats(rep, ' ') && !rep.OptionalChar?
    requires t == [] || (!IsTrimmed(t[0]) && t[0] != ':')
    ensures SkipToken(" " + t, rep) == t && SkipToken(t, rep) == t
  {
    assert (" " + t)[1..] == t;
    assert t == [] || !TokenRepeats(rep, t[0]);
    assert SkipRun(t, rep) == t;
    assert SkipRun(" " + t, rep) == SkipRun(t, rep);
  }

  lemma {:induction false} RestOfLineStops(value: string, rest: string)
    requires forall k :: 0 <= k < |value| ==> !IsLineTerminator(value[k])
    requires rest == [] || IsLineTerminator(rest[0])
    ensures RestOfLine(value + rest) == value
    decreases |value|
  {
    if value != [] {
      assert (value + rest)[1..] == value[1..] + rest;
      RestOfLineStops(value[1..], rest);
    } else {
      assert value + rest == rest;
    }
  }

  /** A card that starts with the key is read from just after it. */
  lemma LeadingKeyIsFound(key: string, after: string, tail: seq<Token>)
    ensures GetFieldValue(key + after, key, tail) == Some(Trim(RestOfLine(SkipTokens(after, tail))))
  {
    assert OccursAt(key + after, key, 0);
    assert (key + after)[|key|..] == after;
  }

  /** The value read back from the text after the key and its tail. */
  lemma ValueReadsBack(value: string, rest: string)
    requires value != [] && !IsTrimmed(value[0]) && !IsTrimmed(value[|value| - 1])
    requires forall k :: 0 <= k < |value| ==> !IsLineTerminator(value[k])
    requires rest == [] || IsLineTerminator(rest[0])
    ensures Trim(RestOfLine(value + rest)) == value
  {
    RestOfLineStops(value, rest);
  }

  /** A field rendered as "key: value" at the start of the card reads back as its value. */
  lemma RenderedFieldReadsBack(key: string, value: string, rest: string)
    requires value != [] && !IsTrimmed(value[0]) && !IsTrimmed(value[|value| - 1]) && value[0] != ':'
    requires forall k :: 0 <= k < |value| ==> !IsLineTerminator(value[k])
    requires rest == [] || IsLineTerminator(rest[0])
    ensures GetFieldValue(key + ": " + value + rest, key, FieldTail) == Some(value)
  {
    var t := value + rest;
    assert key + ": " + value + rest == key + (": " + t) by {
      assert key + ": " + value + rest == key + ": " + t;
    }
    assert t[0] == value[0];
    LeadingKeyIsFound(key, ": " + t, FieldTail);
    ColonSpaceSkipped(t, FieldTail);
    ValueReadsBack(value, rest);
  }

  /**
   * The authors' line "Автор(-ы): value" reads back as its value: the
   * pattern's literal part is "Автор(-ы", and the closing bracket is optional.
   */
  lemma RenderedAuthorsReadBack(value: string, rest: string)
    requires value != [] && !IsTrimmed(value[0]) && !IsTrimmed(value[|value| - 1]) && value[0] != ':'
    requires forall k :: 0 <= k < |value| ==> !IsLineTerminator(value[k])
    requires rest == [] || IsLineTerminator(rest[0])
    ensures GetFieldValue(AuthorsKey + "): " + value + rest, AuthorsKey, AuthorsTail) == Some(value)
  {
    var after := "): " + (value + rest);
    assert AuthorsKey + "): " + value + rest == AuthorsKey + after;
    LeadingKeyIsFound(AuthorsKey, after, AuthorsTail);
    BracketColonSpaceSkipped(value + rest);
    ValueReadsBack(value, rest);
  }

  /** `\)?:? *:? *` takes exactly "): " before a value that starts with neither ':' nor a space. */
  lemma BracketColonSpaceSkipped(t: string)
    requires t == [] || (!IsTrimmed(t[0]) && t[0] != ':')
    ensures SkipTokens("): " + t, AuthorsTail) == t
  {
    var after := "): " + t;
    assert after[1..] == ": " + t;
    assert SkipToken(after, OptionalChar(')')) == ": " + t;
    assert AuthorsTail[1..] == FieldTail;
    ColonSpaceSkipped(t, FieldTail);
  }

  /** A date rendered as "key: dd.MM.yyyy" at the start of the card reads back as that date. */
  lemma RenderedDateReadsBack(key: string, d: Date, rest: string)
    requires IsValidDate(d) && 1 <= d.year <= 9999
    ensures GetDateField(key + ": " + FormatDotted(d) + rest, key) == Some(d)
  {
    var f := FormatDotted(d);
    var text := key + ": " + f + rest;
    FormattedFields(d);
    ParseFormatDotted(d);
    assert OccursAt(text, key, 0);
    assert IndexOfFrom(text, key, 0) == 0;
    assert text[|key|..] == ": " + (f + rest);
    assert (f + rest)[0] == f[0];
    ColonSpaceSkipped(f + rest, DateTail);
    assert (f + rest)[..10] == f;
  }

  // ---------------------------------------------------------------------------
  // The record read off a card
  // ---------------------------------------------------------------------------

  /** fixMixedCharacters as a value: each character repaired on its own. */
  function Repaired(text: Option<string>): (r: Option<string>)
    ensures r.None? <==> text.None?
  {
    match text
    case None => None
    case Some(t) => Some(seq(|t|, k requires 0 <= k < |t| => TransliterationUtil.FixChar(t[k])))
  }

  /** The record extractPatentData builds from a card's text. */
  function CardRecord(cardText: string, category: string): Record {
    var title := Repaired(GetFieldValue(cardText, TitleKey, FieldTail));
    var sortName := GetFieldValue(cardText, SortNameKey, FieldTail);
    Blank.(
      patentSite := Some(RegistrySite),
      category := Some(category),
      title := if sortName.Some? && title.None? then sortName else title,
      bulletinNumber := GetFieldValue(cardText, BulletinNumberKey, FieldTail),
      bulletinDate := GetDateField(cardText, BulletinDateKey),
      authors := GetFieldValue(cardText, AuthorsKey, AuthorsTail),
      sortName := sortName)
  }

  /**
   * extractPatentData: the site and category, the repaired title, the
   * bulletin number and date, the authors and the variety name; a missing
   * title falls back to the variety name.
   */
  method ExtractPatentData(cardText: string, category: string) returns (patent: Record)
    ensures patent == CardRecord(cardText, category)
  {
    var rawTitle := GetFieldValue(cardText, TitleKey, FieldTail);
    var title := TransliterationUtil.FixMixedCharacters(rawTitle);
    RepairedPerCharacter(rawTitle, title);
    var sortName := GetFieldValue(cardText, SortNameKey, FieldTail);
    if sortName.Some? && title.None? {
      title := sortName;
    }
    patent := Blank.(
      patentSite := Some(RegistrySite),
      category := Some(category),
      title := title,
      bulletinNumber := GetFieldValue(cardText, BulletinNumberKey, FieldTail),
      bulletinDate := GetDateField(cardText, BulletinDateKey),
      authors := GetFieldValue(cardText, AuthorsKey, AuthorsTail),
      sortName := sortName);
  }

  /** A text repaired character by character is the repaired text. */
  lemma RepairedPerCharacter(text: Option<string>, r: Option<string>)
    requires r.None? <==> text.None?
    requires r.Some? ==> |r.value| == |text.value|
    requires r.Some? ==> forall i :: 0 <= i < |r.value| ==> r.value[i] == TransliterationUtil.FixChar(text.value[i])
    ensures r == Repaired(text)
  {
    if r.Some? {
      assert r.value == Repaired(text).value;
    }
  }

  /**
   * The card's title: the repaired "Название" line when there is one, else
   * the variety name; it is missing only when both are.
   */
  lemma CardTitle(cardText: string, category: string)
    ensures var title := GetFieldValue(cardText, TitleKey, FieldTail);
            var p := CardRecord(cardText, category);
            (title.Some? ==> p.title.Some? && |p.title.value| == |title.value| &&
                             forall k :: 0 <= k < |title.value| ==> p.title.value[k] == TransliterationUtil.FixChar(title.value[k])) &&
            (title.None? ==> p.title == p.sortName) &&
            (p.title.None? <==> title.None? && p.sortName.None?)
  {
  }

  /** A card carries no status, so a card record on its own never passes the validator. */
  lemma CardRecordIsNeverValid(cardText: string, category: string)
    ensures !PatentValidator.IsValid(Some(CardRecord(cardText, category)))
    ensures CardRecord(cardText, category).securityDocNumber.None? && CardRecord(cardText, category).registrationNumber.None?
  {
  }

  // ---------------------------------------------------------------------------
  // Collecting the cards
  // ---------------------------------------------------------------------------

  /** What one wait for the result cards ends with. */
  datatype CardWait = CardsShown(count: nat) | WaitFailed | CardsStale

  const CardWaits: nat := 3

  /** The cards found: the first list shown, none after a timeout or a missing element or three stale references. */
  function CollectedFrom(waits: nat -> CardWait, tried: nat, left: nat): nat
    decreases left
  {
    if left == 0 then 0
    else
      match waits(tried)
      case CardsShown(n) => n
      case WaitFailed => 0
      case CardsStale => CollectedFrom(waits, tried + 1, left - 1)
  }

  /** The loop waiting for the cards; `waits(k)` is how the k-th wait ends. */
  method CollectCards(waits: nat -> CardWait) returns (count: nat)
    ensures count == CollectedFrom(waits, 0, CardWaits)
  {
    var left := CardWaits;
    var tried := 0;
    count := 0;
    while left > 0
      invariant tried + left == CardWaits
      invariant CollectedFrom(waits, 0, CardWaits) == CollectedFrom(waits, tried, left)
    {
      match waits(tried) {
        case CardsShown(n) =>
          return n;
        case WaitFailed =>
          return 0;
        case CardsStale =>
          left := left - 1;
          tried := tried + 1;
      }
    }
  }

  /** Three stale references in a row leave the page without cards. */
  lemma ThreeStaleWaitsFindNothing(waits: nat -> CardWait)
    requires waits(0) == CardsStale && waits(1) == CardsStale && waits(2) == CardsStale
    ensures CollectedFrom(waits, 0, CardWaits) == 0
  {
    assert CollectedFrom(waits, 2, 1) == CollectedFrom(waits, 3, 0);
  }

  // ---------------------------------------------------------------------------
  // One card
  // ---------------------------------------------------------------------------

  /**
   * How one try at a card goes up to the detail fetch: no link (retryFindElement
   * gave null), a stale reference (and whether re-fetching the card list
   * worked), another exception, or a link with the card's text and the
   * detail fetch's connection outcomes.
   */
  datatype Attempt =
    | LinkMissing
    | StaleCard(refetched: bool)
    | CardFailed
    | Link(href: Option<string>, cardText: string, fetches: seq<FetchOutcome>)

  /** How a try ends: the card is finished (with the record added, if any), retried, or stuck in the fetch loop. */
  datatype CardEnd = CardDone(added: Option<Record>) | CardRetry | CardHung

  /** A try's end together with the ledger after it. */
  datatype Step = Step(end: CardEnd, entries: seq<LedgerEntry>)

  /**
   * The gate after the merge: a stored duplicate (or a lookup that throws) is
   * skipped with no ledger write; a valid record is added and recorded as
   * parsed; an invalid one is recorded as not parsed.
   */
  function Gate(merged: Record, rows: seq<Record>, entries: seq<LedgerEntry>, available: bool, category: string, docNumber: string): Step {
    if PatentService.IsPatentExists(Some(merged), rows) != Success(false) then Step(CardDone(None), entries)
    else if PatentValidator.IsValid(Some(merged)) then Step(CardDone(Some(merged)), Saved(entries, available, category, docNumber, true))
    else Step(CardDone(None), Saved(entries, available, category, docNumber, false))
  }

  /** One try at a card, as the body of the retry loop runs it. */
  function AttemptStep(category: string, a: Attempt, rows: seq<Record>, entries: seq<LedgerEntry>, available: bool): Step {
    match a
    case LinkMissing => Step(CardDone(None), entries)
    case CardFailed => Step(CardDone(None), entries)
    case StaleCard(refetched) => Step(if refetched then CardRetry else CardDone(None), entries)
    case Link(href, cardText, fetches) =>
      if href.None? || href.value == [] then Step(CardDone(None), entries)
      else LinkStep(category, href.value, cardText, fetches, rows, entries, available)
  }

  /** A try that found the card's link: fetch the details, merge them into the card's record, then the gate. */
  function LinkStep(category: string, href: string, cardText: string, fetches: seq<FetchOutcome>,
                    rows: seq<Record>, entries: seq<LedgerEntry>, available: bool): Step {
    var docNumber := DocNumberOf(href);
    AfterFetch(FetchRun(docNumber, category, FetchAttempts, fetches), CardRecord(cardText, category),
               rows, entries, available, category, docNumber)
  }

  /** What follows the detail fetch: the not-parsed ledger write it asked for, then the merge and the gate. */
  function AfterFetch(fetch: Fetch, card: Record, rows: seq<Record>, entries: seq<LedgerEntry>, available: bool,
                      category: string, docNumber: string): Step {
    var afterFetch := if fetch.ledgerWrite then Saved(entries, available, category, docNumber, false) else entries;
    match fetch.result
    case FetchUnfinished => Step(CardHung, afterFetch)
    case NoDetail => Step(CardDone(None), afterFetch)
    case DetailThrew(_) => Step(CardDone(None), afterFetch)
    case Detail(d) => Gate(MergePatentData(card, Some(d)).value, rows, afterFetch, available, category, docNumber)
  }

  /** One try at card `i`, with the ledger behind `ledger` and the stored patents in `repo`. */
  method ParseCardAttempt(category: string, a: Attempt, repo: PatentService.PatentRepository, ledger: DocNumberStore)
    returns (end: CardEnd)
    requires ledger.Valid()
    modifies ledger`entries
    ensures ledger.Valid()
    ensures Step(end, ledger.entries) == AttemptStep(category, a, repo.rows, old(ledger.entries), ledger.available)
  {
    match a {
      case LinkMissing =>
        return CardDone(None);
      case CardFailed =>
        return CardDone(None);
      case StaleCard(refetched) =>
        return if refetched then CardRetry else CardDone(None);
      case Link(href, cardText, fetches) =>
        if href.None? || href.value == [] {
          return CardDone(None);
        }
        end := ParseLinkedCard(category, href.value, cardText, fetches, repo, ledger);
    }
  }

  /** The try once the card's link is known: the detail fetch, the merge and the gate. */
  method ParseLinkedCard(category: string, href: string, cardText: string, fetches: seq<FetchOutcome>,
                         repo: PatentService.PatentRepository, ledger: DocNumberStore)
    returns (end: CardEnd)
    requires ledger.Valid()
    modifies ledger`entries
    ensures ledger.Valid()
    ensures Step(end, ledger.entries) == LinkStep(category, href, cardText, fetches, repo.rows, old(ledger.entries), ledger.available)
  {
    var patent := ExtractPatentData(cardText, category);
    ghost var fetch := FetchRun(DocNumberOf(href), category, FetchAttempts, fetches);
    ghost var before := ledger.entries;
    var detail := FetchPatentDetails(href, category, fetches, ledger);
    end := FinishLinkedCard(patent, fetch, detail, category, DocNumberOf(href), before, repo, ledger);
  }

  /** The rest of the try once the detail fetch has run, against the run that produced `detail`. */
  method FinishLinkedCard(patent: Record, ghost fetch: Fetch, detail: FetchResult, category: string, docNumber: string,
                          ghost before: seq<LedgerEntry>, repo: PatentService.PatentRepository, ledger: DocNumberStore)
    returns (end: CardEnd)
    requires ledger.Valid() && detail == fetch.result
    requires ledger.entries == if fetch.ledgerWrite then Saved(before, ledger.available, category, docNumber, false) else before
    modifies ledger`entries
    ensures ledger.Valid()
    ensures Step(end, ledger.entries) == AfterFetch(fetch, patent, repo.rows, before, ledger.available, category, docNumber)
  {
    if detail.FetchUnfinished? {
      return CardHung;
    }
    if !detail.Detail? {
      return CardDone(None);
    }
    var merged := MergePatentData(patent, Some(detail.patent)).value;
    end := AdmitMerged(merged, category, docNumber, repo, ledger);
  }

  /** The gate as the loop body runs it: the duplicate check, the validator, then the ledger write. */
  method AdmitMerged(merged: Record, category: string, docNumber: string,
                     repo: PatentService.PatentRepository, ledger: DocNumberStore)
    returns (end: CardEnd)
    requires ledger.Valid()
    modifies ledger`entries
    ensures ledger.Valid()
    ensures Step(end, ledger.entries) == Gate(merged, repo.rows, old(ledger.entries), ledger.available, category, docNumber)
  {
    var known := PatentService.IsPatentExists(Some(merged), repo.rows);
    if known != Success(false) {
      return CardDone(None);
    }
    if PatentValidator.IsValid(Some(merged)) {
      ledger.SaveDocNumber(category, docNumber, true);
      end := CardDone(Some(merged));
    } else {
      ledger.SaveDocNumber(category, docNumber, false);
      end := CardDone(None);
    }
  }

  const CardTries: nat := 3

  /** How one try changes the ledger: the try's outcome and the ledger it started from give its step. */
  type StepFn = (Attempt, seq<LedgerEntry>) -> Step

  /** The try the card loop runs, against the stored patents and the ledger's database. */
  function StepOf(category: string, rows: seq<Record>, available: bool): StepFn {
    (a: Attempt, entries: seq<LedgerEntry>) => AttemptStep(category, a, rows, entries, available)
  }

  /**
   * `step` is the card loop's try: wherever a try's outcome is known, `step` gives the same.
   * The trigger keeps the try's definition folded until a try is actually taken.
   */
  ghost predicate StepsAs(step: StepFn, category: string, rows: seq<Record>, available: bool) {
    forall a: Attempt, entries: seq<LedgerEntry> {:trigger AttemptStep(category, a, rows, entries, available)} ::
      step(a, entries) == AttemptStep(category, a, rows, entries, available)
  }

  lemma StepOfStepsAs(category: string, rows: seq<Record>, available: bool)
    ensures StepsAs(StepOf(category, rows, available), category, rows, available)
  {
  }

  /** The retry loop for card `i`: `attempt(i, t)` is how its t-th try goes; only a stale reference is retried. */
  function CardRun(step: StepFn, attempt: (nat, nat) -> Attempt, i: nat, tried: nat, entries: seq<LedgerEntry>): Step
    decreases CardTries - tried
  {
    if tried >= CardTries then Step(CardDone(None), entries)
    else
      var s := step(attempt(i, tried), entries);
      if s.end.CardRetry? then CardRun(step, attempt, i, tried + 1, s.entries) else s
  }

  /** The patents a page yields, the ledger after it, and whether a detail fetch never ended. */
  datatype PageResult = PageResult(patents: seq<Record>, entries: seq<LedgerEntry>, hung: bool)

  /** The cards from `i` on, in order; a fetch that never ends stops everything. */
  function PageRun(step: StepFn, attempt: (nat, nat) -> Attempt, count: nat, i: nat, entries: seq<LedgerEntry>): PageResult
    decreases count - i
  {
    if i >= count then PageResult([], entries, false)
    else
      var s := CardRun(step, attempt, i, 0, entries);
      match s.end
      case CardHung => PageResult([], s.entries, true)
      case CardRetry => PageResult([], s.entries, false)
      case CardDone(added) =>
        var rest := PageRun(step, attempt, count, i + 1, s.entries);
        PageResult((if added.Some? then [added.value] else []) + rest.patents, rest.entries, rest.hung)
  }

  /** One card's run, unfolded once. */
  lemma CardRunStep(step: StepFn, attempt: (nat, nat) -> Attempt, i: nat, tried: nat, entries: seq<LedgerEntry>, s: Step)
    requires tried < CardTries && s == step(attempt(i, tried), entries)
    ensures !s.end.CardRetry? ==> CardRun(step, attempt, i, tried, entries) == s
    ensures s.end.CardRetry? ==> CardRun(step, attempt, i, tried, entries) == CardRun(step, attempt, i, tried + 1, s.entries)
  {
  }

  /** The patents found before card `i`, put in front of what the rest of the page yields. */
  function Prepend(found: seq<Record>, rest: PageResult): PageResult {
    PageResult(found + rest.patents, rest.entries, rest.hung)
  }

  lemma PrependTwice(first: seq<Record>, second: seq<Record>, rest: PageResult)
    ensures Prepend(first, Prepend(second, rest)) == Prepend(first + second, rest)
  {
    assert first + (second + rest.patents) == (first + second) + rest.patents;
  }

  /** A page's run from card `i`, unfolded once. */
  lemma PageRunStep(step: StepFn, attempt: (nat, nat) -> Attempt, count: nat, i: nat, entries: seq<LedgerEntry>, s: Step)
    requires i < count && s == CardRun(step, attempt, i, 0, entries)
    ensures s.end.CardHung? ==> PageRun(step, attempt, count, i, entries) == PageResult([], s.entries, true)
    ensures s.end.CardDone? ==>
              PageRun(step, attempt, count, i, entries) ==
              Prepend(if s.end.added.Some? then [s.end.added.value] else [], PageRun(step, attempt, count, i + 1, s.entries))
  {
  }

  /** A card's run always finishes the card or hangs: the last stale reference is not retried. */
  lemma {:induction false} CardRunSettles(step: StepFn, attempt: (nat, nat) -> Attempt, i: nat, tried: nat, entries: seq<LedgerEntry>)
    ensures !CardRun(step, attempt, i, tried, entries).end.CardRetry?
    decreases CardTries - tried
  {
    if tried < CardTries {
      var s := step(attempt(i, tried), entries);
      if s.end.CardRetry? {
        CardRunSettles(step, attempt, i, tried + 1, s.entries);
      }
    }
  }

  // ---------------------------------------------------------------------------
  // What a page admits
  // ---------------------------------------------------------------------------

  /** What every patent the page yields satisfies: it passed the validator, was not stored yet, and belongs to the category on this site. */
  predicate Admitted(p: Record, category: string, rows: seq<Record>) {
    PatentValidator.IsValid(Some(p)) && PatentService.IsPatentExists(Some(p), rows) == Success(false) &&
    p.category == Some(category) && p.patentSite == Some(RegistrySite) && p.docNumber.Some?
  }

  /** The ledger only grows: its old entries stay where they were, and keys stay unique. */
  predicate Grows(before: seq<LedgerEntry>, after: seq<LedgerEntry>) {
    |before| <= |after| && after[..|before|] == before && (UniqueKeys(before) ==> UniqueKeys(after))
  }

  lemma GrowsTransitive(a: seq<LedgerEntry>, b: seq<LedgerEntry>, c: seq<LedgerEntry>)
    requires Grows(a, b) && Grows(b, c)
    ensures Grows(a, c)
  {
    assert c[..|a|] == c[..|b|][..|a|];
  }

  /** A key in the ledger stays there as the ledger grows. */
  lemma KeyStays(before: seq<LedgerEntry>, after: seq<LedgerEntry>, category: string, documentNumber: string)
    requires Grows(before, after) && HasKey(before, category, documentNumber)
    ensures HasKey(after, category, documentNumber)
  {
    var i :| 0 <= i < |before| && before[i].category == category && before[i].documentNumber == documentNumber;
    assert after[i] == after[..|before|][i];
  }

  /**
   * One try at a card: the ledger only grows, and a patent it adds is
   * admitted, carries the link's document number and the card's authors,
   * and is recorded in the ledger as parsed when the database is reachable.
   */
  lemma AttemptAdmits(category: string, a: Attempt, rows: seq<Record>, entries: seq<LedgerEntry>, available: bool)
    ensures var s := AttemptStep(category, a, rows, entries, available);
            Grows(entries, s.entries) &&
            (s.end.CardDone? && s.end.added.Some? ==>
               a.Link? && a.href.Some? &&
               Admitted(s.end.added.value, category, rows) &&
               s.end.added.value.docNumber == Some(DocNumberOf(a.href.value)) &&
               s.end.added.value.authors == GetFieldValue(a.cardText, AuthorsKey, AuthorsTail) &&
               (available ==> HasKey(s.entries, category, DocNumberOf(a.href.value))))
  {
    if a.Link? && a.href.Some? && a.href.value != [] {
      var docNumber := DocNumberOf(a.href.value);
      var fetch := FetchRun(docNumber, category, FetchAttempts, a.fetches);
      FetchedDetailNamesDocument(docNumber, category, FetchAttempts, a.fetches);
      if fetch.result.Detail? {
        var card := CardRecord(a.cardText, category);
        MergeNeverCopies(card, fetch.result.patent);
        var merged := MergePatentData(card, Some(fetch.result.patent)).value;
        assert merged.docNumber == Some(docNumber) && merged.authors == card.authors;
      }
    }
  }

  /** What a try or a card's run keeps: the ledger only grows, and what it adds is admitted and recorded. */
  predicate KeepsLedger(category: string, rows: seq<Record>, entries: seq<LedgerEntry>, available: bool, s: Step) {
    Grows(entries, s.entries) &&
    (s.end.CardDone? && s.end.added.Some? ==>
       Admitted(s.end.added.value, category, rows) &&
       (available ==> HasKey(s.entries, category, s.end.added.value.docNumber.value)))
  }

  lemma AttemptKeepsLedger(category: string, a: Attempt, rows: seq<Record>, entries: seq<LedgerEntry>, available: bool)
    ensures KeepsLedger(category, rows, entries, available, AttemptStep(category, a, rows, entries, available))
  {
    AttemptAdmits(category, a, rows, entries, available);
  }

  /** Every try of `step` keeps the ledger, whatever the try's outcome and the ledger before it. */
  ghost predicate StepKeeps(step: StepFn, category: string, rows: seq<Record>, available: bool) {
    forall a: Attempt, entries: seq<LedgerEntry> :: KeepsLedger(category, rows, entries, available, step(a, entries))
  }

  /** The card loop's own try keeps the ledger. */
  lemma StepOfKeeps(category: string, rows: seq<Record>, available: bool)
    ensures StepKeeps(StepOf(category, rows, available), category, rows, available)
  {
    forall a: Attempt, entries: seq<LedgerEntry>
      ensures KeepsLedger(category, rows, entries, available, StepOf(category, rows, available)(a, entries))
    {
      AttemptKeepsLedger(category, a, rows, entries, available);
    }
  }

  /** One card's run: the same, over its retries. */
  lemma {:induction false} CardRunAdmits(step: StepFn, category: string, rows: seq<Record>, available: bool,
                                         attempt: (nat, nat) -> Attempt, i: nat, tried: nat, entries: seq<LedgerEntry>)
    requires StepKeeps(step, category, rows, available)
    ensures KeepsLedger(category, rows, entries, available, CardRun(step, attempt, i, tried, entries))
    decreases CardTries - tried
  {
    if tried < CardTries {
      var s := step(attempt(i, tried), entries);
      assert KeepsLedger(category, rows, entries, available, s);
      if s.end.CardRetry? {
        CardRunAdmits(step, category, rows, available, attempt, i, tried + 1, s.entries);
        KeepsLedgerFrom(category, rows, entries, s.entries, available, CardRun(step, attempt, i, tried + 1, s.entries));
      }
    }
  }

  /** What a run keeps from a later ledger it also keeps from an earlier one the later one grew from. */
  lemma KeepsLedgerFrom(category: string, rows: seq<Record>, entries: seq<LedgerEntry>, mid: seq<LedgerEntry>,
                        available: bool, s: Step)
    requires Grows(entries, mid) && KeepsLedger(category, rows, mid, available, s)
    ensures KeepsLedger(category, rows, entries, available, s)
  {
    GrowsTransitive(entries, mid, s.entries);
  }

  /** A page's run over any step that keeps the ledger yields admitted, recorded patents and a grown ledger. */
  lemma {:induction false} PageRunKeeps(step: StepFn, category: string, rows: seq<Record>, available: bool,
                                        attempt: (nat, nat) -> Attempt, count: nat, i: nat, entries: seq<LedgerEntry>)
    requires StepKeeps(step, category, rows, available)
    ensures var r := PageRun(step, attempt, count, i, entries);
            Grows(entries, r.entries) &&
            forall p :: p in r.patents ==>
              Admitted(p, category, rows) && (available ==> HasKey(r.entries, category, p.docNumber.value))
    decreases count - i
  {
    if i < count {
      var s := CardRun(step, attempt, i, 0, entries);
      CardRunAdmits(step, category, rows, available, attempt, i, 0, entries);
      if s.end.CardDone? {
        var rest := PageRun(step, attempt, count, i + 1, s.entries);
        PageRunKeeps(step, category, rows, available, attempt, count, i + 1, s.entries);
        GrowsTransitive(entries, s.entries, rest.entries);
        if s.end.added.Some? && available {
          KeyStays(s.entries, rest.entries, category, s.end.added.value.docNumber.value);
        }
      }
    }
  }

  /**
   * A whole page: every patent it yields is admitted and, when the database
   * is reachable, recorded in the final ledger; the ledger only grows.
   */
  lemma PageRunAdmits(category: string, attempt: (nat, nat) -> Attempt, count: nat, i: nat,
                      rows: seq<Record>, entries: seq<LedgerEntry>, available: bool)
    ensures var r := PageRun(StepOf(category, rows, available), attempt, count, i, entries);
            Grows(entries, r.entries) &&
            forall p :: p in r.patents ==>
              Admitted(p, category, rows) && (available ==> HasKey(r.entries, category, p.docNumber.value))
  {
    StepOfKeeps(category, rows, available);
    PageRunKeeps(StepOf(category, rows, available), category, rows, available, attempt, count, i, entries);
  }

  /** Nothing is written to the ledger nor added for a card whose merged record is already stored. */
  lemma StoredDuplicateLeavesNoTrace(fetch: Fetch, card: Record, rows: seq<Record>, entries: seq<LedgerEntry>,
                                     available: bool, category: string, docNumber: string)
    requires fetch.result.Detail? && !fetch.ledgerWrite
    requires PatentService.IsPatentExists(MergePatentData(card, Some(fetch.result.patent)), rows) == Success(true)
    ensures AfterFetch(fetch, card, rows, entries, available, category, docNumber) == Step(CardDone(None), entries)
  {
  }

  /** A detail fetch that gives null leaves the card unadded, whatever the card says. */
  lemma NullDetailAddsNothing(fetch: Fetch, card: Record, rows: seq<Record>, entries: seq<LedgerEntry>,
                              available: bool, category: string, docNumber: string)
    requires fetch.result.NoDetail?
    ensures AfterFetch(fetch, card, rows, entries, available, category, docNumber).end == CardDone(None)
  {
  }

  /**
   * parsePatents: wait for the cards, then try each card up to three times,
   * retrying only after a stale reference whose card list could be fetched
   * again. `hung` reports a detail fetch whose loop never ends.
   */
  method ParsePatents(category: string, waits: nat -> CardWait, attempt: (nat, nat) -> Attempt,
                      repo: PatentService.PatentRepository, ledger: DocNumberStore)
    returns (patents: seq<Record>, hung: bool)
    requires ledger.Valid()
    modifies ledger`entries
    ensures ledger.Valid()
    ensures PageResult(patents, ledger.entries, hung) ==
            PageRun(StepOf(category, repo.rows, ledger.available), attempt, CollectedFrom(waits, 0, CardWaits), 0, old(ledger.entries))
  {
    ghost var rows, available, start := repo.rows, ledger.available, ledger.entries;
    ghost var step := StepOf(category, rows, available);
    StepOfStepsAs(category, rows, available);
    var count := CollectCards(waits);
    patents := [];
    hung := false;
    for i := 0 to count
      invariant ledger.Valid() && repo.rows == rows && ledger.available == available && !hung
      invariant PageRun(step, attempt, count, 0, start) == Prepend(patents, PageRun(step, attempt, count, i, ledger.entries))
    {
      var end := TakeCard(step, category, attempt, count, i, repo, ledger);
      if end.CardHung? {
        hung := true;
        return;
      }
      var added := if end.added.Some? then [end.added.value] else [];
      PrependTwice(patents, added, PageRun(step, attempt, count, i + 1, ledger.entries));
      patents := patents + added;
    }
  }

  /** Card `i` of `count`: it hangs the page, or it adds at most one patent before the rest of the page. */
  method TakeCard(ghost step: StepFn, category: string, attempt: (nat, nat) -> Attempt, count: nat, i: nat,
                  repo: PatentService.PatentRepository, ledger: DocNumberStore)
    returns (end: CardEnd)
    requires ledger.Valid() && i < count && StepsAs(step, category, repo.rows, ledger.available)
    modifies ledger`entries
    ensures ledger.Valid() && !end.CardRetry?
    ensures end.CardHung? ==>
              PageRun(step, attempt, count, i, old(ledger.entries)) == PageResult([], ledger.entries, true)
    ensures end.CardDone? ==>
              PageRun(step, attempt, count, i, old(ledger.entries)) ==
              Prepend(if end.added.Some? then [end.added.value] else [], PageRun(step, attempt, count, i + 1, ledger.entries))
  {
    end := ParseCard(step, category, attempt, i, repo, ledger);
    CardRunSettles(step, attempt, i, 0, old(ledger.entries));
    PageRunStep(step, attempt, count, i, old(ledger.entries), Step(end, ledger.entries));
  }

  /** Try `tried` at card `i`: either the card's run is over, or it goes on from the next try. */
  method TryCard(ghost step: StepFn, category: string, attempt: (nat, nat) -> Attempt, i: nat, tried: nat,
                 repo: PatentService.PatentRepository, ledger: DocNumberStore)
    returns (end: CardEnd)
    requires ledger.Valid() && tried < CardTries && StepsAs(step, category, repo.rows, ledger.available)
    modifies ledger`entries
    ensures ledger.Valid()
    ensures !end.CardRetry? ==> CardRun(step, attempt, i, tried, old(ledger.entries)) == Step(end, ledger.entries)
    ensures end.CardRetry? ==>
              CardRun(step, attempt, i, tried, old(ledger.entries)) == CardRun(step, attempt, i, tried + 1, ledger.entries)
  {
    end := ParseCardAttempt(category, attempt(i, tried), repo, ledger);
    assert step(attempt(i, tried), old(ledger.entries)) == Step(end, ledger.entries);
    CardRunStep(step, attempt, i, tried, old(ledger.entries), Step(end, ledger.entries));
  }

  /** The retry loop for one card. */
  method ParseCard(ghost step: StepFn, category: string, attempt: (nat, nat) -> Attempt, i: nat,
                   repo: PatentService.PatentRepository, ledger: DocNumberStore)
    returns (end: CardEnd)
    requires ledger.Valid() && StepsAs(step, category, repo.rows, ledger.available)
    modifies ledger`entries
    ensures ledger.Valid()
    ensures Step(end, ledger.entries) == CardRun(step, attempt, i, 0, old(ledger.entries))
  {
    ghost var rows, available := repo.rows, ledger.available;
    var retryCount := 0;
    while retryCount < CardTries
      invariant ledger.Valid() && repo.rows == rows && ledger.available == available
      invariant retryCount <= CardTries
      invariant CardRun(step, attempt, i, 0, old(ledger.entries)) == CardRun(step, attempt, i, retryCount, ledger.entries)
    {
      end := TryCard(step, category, attempt, i, retryCount, repo, ledger);
      if !end.CardRetry? {
        return;
      }
      retryCount := retryCount + 1;
    }
    end := CardDone(None);
  }
}
