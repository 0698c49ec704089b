/**
 * The registry parser's detail-page handling: label clean-up, the seventeen
 * core labels and the typed setters behind them, the record built from one
 * detail page, the merge of that record into the record read off the search
 * card, and the retrying fetch that produces it.
 */
module GosReestrDetails {
  import opened Wrappers
  import opened JavaText
  import opened LocalDates
  import opened PatentModel
  import opened PatentStorageService

  /** The site name every registry record carries. */
  const RegistrySite: string := "gosreestr.kazpatent.kz"

  // ---------------------------------------------------------------------------
  // Label clean-up: replaceAll("\\(.*\\)", "") followed by trim()
  // ---------------------------------------------------------------------------

  /** A ')' comes before the first line terminator, so `.*` can reach it. */
  predicate ClosesBeforeBreak(s: string)
    decreases |s|
  {
    s != [] && !IsLineTerminator(s[0]) && (s[0] == ')' || ClosesBeforeBreak(s[1..]))
  }

  /** The last ')' before the first line terminator: where a greedy `\(.*\)` match ends. */
  function LastCloseOnLine(s: string): (r: Option<nat>)
    ensures r.None? <==> !ClosesBeforeBreak(s)
    ensures r.Some? ==> r.value < |s| && s[r.value] == ')'
    decreases |s|
  {
    if s == [] || IsLineTerminator(s[0]) then None
    else
      var rest := LastCloseOnLine(s[1..]);
      if rest.Some? then Some(rest.value + 1)
      else if s[0] == ')' then Some(0)
      else None
  }

  /**
   * replaceAll("\\(.*\\)", ""): scanning left to right, each '(' that has a
   * ')' later on its line is deleted together with everything up to the last
   * such ')'; scanning resumes after it.
   */
  function StripParens(s: string): (r: string)
    ensures |r| <= |s|
    decreases |s|
  {
    if s == [] then []
    else if s[0] == '(' then
      var close := LastCloseOnLine(s[1..]);
      if close.Some? then StripParens(s[close.value + 2..]) else [s[0]] + StripParens(s[1..])
    else [s[0]] + StripParens(s[1..])
  }

  /** No '(' is followed, on its own line, by a ')'. */
  predicate NoParenPair(r: string)
    decreases |r|
  {
    r == [] || ((r[0] != '(' || !ClosesBeforeBreak(r[1..])) && NoParenPair(r[1..]))
  }

  lemma {:induction false} OpenLineStaysOpen(s: string)
    requires !ClosesBeforeBreak(s)
    ensures !ClosesBeforeBreak(StripParens(s))
    decreases |s|
  {
    if s != [] && !IsLineTerminator(s[0]) {
      assert s[0] != '(' || LastCloseOnLine(s[1..]).None?;
      OpenLineStaysOpen(s[1..]);
      assert StripParens(s) == [s[0]] + StripParens(s[1..]);
      assert ([s[0]] + StripParens(s[1..]))[1..] == StripParens(s[1..]);
    }
  }

  /** After the replacement no '(' ... ')' pair is left on any line. */
  lemma {:induction false} StripParensLeavesNoPair(s: string)
    ensures NoParenPair(StripParens(s))
    decreases |s|
  {
    if s == [] {
    } else if s[0] == '(' && LastCloseOnLine(s[1..]).Some? {
      StripParensLeavesNoPair(s[LastCloseOnLine(s[1..]).value + 2..]);
    } else {
      var tail := StripParens(s[1..]);
      var r := [s[0]] + tail;
      assert StripParens(s) == r;
      assert r[1..] == tail;
      StripParensLeavesNoPair(s[1..]);
      if s[0] == '(' {
        OpenLineStaysOpen(s[1..]);
      }
    }
  }

  lemma {:induction false} ClosesBeforeBreakExtends(s: string, t: string)
    requires ClosesBeforeBreak(s)
    ensures ClosesBeforeBreak(s + t)
    decreases |s|
  {
    assert (s + t)[0] == s[0];
    if s[0] != ')' {
      ClosesBeforeBreakExtends(s[1..], t);
      assert (s + t)[1..] == s[1..] + t;
    }
  }

  lemma {:induction false} NoParenPairSuffix(s: string, k: nat)
    requires NoParenPair(s) && k <= |s|
    ensures NoParenPair(s[k..])
    decreases k
  {
    if k > 0 {
      NoParenPairSuffix(s[1..], k - 1);
      assert s[1..][k - 1..] == s[k..];
    }
  }

  lemma {:induction false} NoParenPairPrefix(x: string, y: string)
    requires NoParenPair(x + y)
    ensures NoParenPair(x)
    decreases |x|
  {
    if x != [] {
      assert (x + y)[0] == x[0] && (x + y)[1..] == x[1..] + y;
      NoParenPairPrefix(x[1..], y);
      if x[0] == '(' && ClosesBeforeBreak(x[1..]) {
        ClosesBeforeBreakExtends(x[1..], y);
      }
    }
  }

  lemma NoParenPairInfix(r: string, s: string, at: int)
    requires NoParenPair(s) && OccursAt(s, r, at)
    ensures NoParenPair(r)
  {
    NoParenPairSuffix(s, at);
    assert s[at..] == r + s[at + |r|..];
    NoParenPairPrefix(r, s[at + |r|..]);
  }

  /** The label a detail item is filed under: the bold text trimmed, bracketed parts removed, trimmed again. */
  function NormalizeLabel(rawLabel: string): string {
    Trim(StripParens(Trim(rawLabel)))
  }

  /** A cleaned-up label has no bracketed part left on any line. */
  lemma NormalizedLabelHasNoPair(rawLabel: string)
    ensures NoParenPair(NormalizeLabel(rawLabel))
  {
    var stripped := StripParens(Trim(rawLabel));
    StripParensLeavesNoPair(Trim(rawLabel));
    var at :| OccursAt(stripped, NormalizeLabel(rawLabel), at);
    NoParenPairInfix(NormalizeLabel(rawLabel), stripped, at);
  }

  /** The authors' printed label keeps a bracketed part. */
  lemma AuthorsLabelHasPair()
    ensures !NoParenPair("Автор(-ы)")
  {
    var t := "Автор(-ы)";
    assert t[6..][1..][1..] == ")";
    assert ClosesBeforeBreak(t[6..][1..]);
    assert ClosesBeforeBreak(t[6..]);
    assert t[5..][1..] == t[6..];
    assert !NoParenPair(t[5..]);
    assert t[4..][1..] == t[5..];
    assert !NoParenPair(t[4..]);
    assert t[3..][1..] == t[4..];
    assert !NoParenPair(t[3..]);
    assert t[2..][1..] == t[3..];
    assert !NoParenPair(t[2..]);
    assert t[1..][1..] == t[2..];
    assert !NoParenPair(t[1..]);
  }

  /** The authors' core label can never come out of the clean-up, so its setter branch is dead. */
  lemma AuthorsLabelUnreachable(rawLabel: string)
    ensures NormalizeLabel(rawLabel) != "Автор(-ы)"
  {
    NormalizedLabelHasNoPair(rawLabel);
    AuthorsLabelHasPair();
  }

  // ---------------------------------------------------------------------------
  // Core labels and their setters
  // ---------------------------------------------------------------------------

  /** The record properties setCoreField can write. */
  datatype Property =
    | Title | ApplicationNumber | FilingDate | RegistrationDate | ExpirationDate | Authors | PatentHolder
    | SecurityDocNumber | RegistrationNumber | Status | Ipc | Mkpo | BulletinNumber | BulletinDate | Owner | SortName

  /**
   * The seventeen labels isCoreField accepts, in its order, each with the
   * property setCoreField's switch writes for it; both classification
   * labels write the same property.
   */
  const CoreLabels: seq<(string, Property)> := [
    ("Название", Title), ("Номер заявки", ApplicationNumber), ("Дата подачи заявки", FilingDate),
    ("Дата регистрации", RegistrationDate), ("Срок действия", ExpirationDate), ("Автор(-ы)", Authors),
    ("Патентообладатель", PatentHolder), ("№ охранного документа", SecurityDocNumber),
    ("№ регистрации", RegistrationNumber), ("Статус", Status), ("МПК", Ipc), ("МКПО", Mkpo), ("МКТУ", Mkpo),
    ("Номер бюллетеня", BulletinNumber), ("Дата бюллетеня", BulletinDate), ("Владелец", Owner),
    ("Наименование сорта, породы", SortName)]

  predicate IsCoreField(fieldLabel: string) {
    exists k :: 0 <= k < |CoreLabels| && CoreLabels[k].0 == fieldLabel
  }

  /** The first table entry for a label. */
  function LookupLabel(table: seq<(string, Property)>, fieldLabel: string): (r: Option<Property>)
    ensures r.None? <==> forall k :: 0 <= k < |table| ==> table[k].0 != fieldLabel
    ensures r.Some? ==> exists k :: 0 <= k < |table| && table[k] == (fieldLabel, r.value)
  {
    if table == [] then None
    else if table[0].0 == fieldLabel then Some(table[0].1)
    else
      var r := LookupLabel(table[1..], fieldLabel);
      assert forall k :: 1 <= k < |table| ==> table[k] == table[1..][k - 1];
      r
  }

  /** The property a core label writes, None for any other label. */
  function CoreProperty(fieldLabel: string): (r: Option<Property>)
    ensures r.Some? <==> IsCoreField(fieldLabel)
    ensures r == Some(Authors) ==> fieldLabel == "Автор(-ы)"
  {
    AuthorsLookup(fieldLabel);
    LookupLabel(CoreLabels, fieldLabel)
  }

  /** Only the authors' label looks up the authors' property. */
  lemma AuthorsLookup(fieldLabel: string)
    ensures LookupLabel(CoreLabels, fieldLabel) == Some(Authors) ==> fieldLabel == "Автор(-ы)"
  {
    if LookupLabel(CoreLabels, fieldLabel) == Some(Authors) {
      var k :| 0 <= k < |CoreLabels| && CoreLabels[k] == (fieldLabel, Authors);
      AuthorsRow(k);
    }
  }

  lemma AuthorsRow(k: int)
    requires 0 <= k < |CoreLabels| && CoreLabels[k].1 == Authors
    ensures CoreLabels[k].0 == "Автор(-ы)"
  {
  }

  /** A property's current value. */
  datatype Slot = Text(text: Option<string>) | Day(date: Option<Date>)

  function Get(p: Record, q: Property): Slot {
    match q
    case Title => Text(p.title)
    case ApplicationNumber => Text(p.applicationNumber)
    case FilingDate => Day(p.filingDate)
    case RegistrationDate => Day(p.registrationDate)
    case ExpirationDate => Day(p.expirationDate)
    case Authors => Text(p.authors)
    case PatentHolder => Text(p.patentHolder)
    case SecurityDocNumber => Text(p.securityDocNumber)
    case RegistrationNumber => Text(p.registrationNumber)
    case Status => Text(p.status)
    case Ipc => Text(p.ipc)
    case Mkpo => Text(p.mkpo)
    case BulletinNumber => Text(p.bulletinNumber)
    case BulletinDate => Day(p.bulletinDate)
    case Owner => Text(p.owner)
    case SortName => Text(p.sortName)
  }

  /** The properties no core label reaches. */
  predicate SameUntouched(a: Record, b: Record) {
    a.docNumber == b.docNumber && a.imageUrl == b.imageUrl && a.category == b.category &&
    a.patentSite == b.patentSite && a.name == b.name && a.additionalFields == b.additionalFields
  }

  predicate IsDateProperty(q: Property) {
    q == FilingDate || q == RegistrationDate || q == ExpirationDate || q == BulletinDate
  }

  /** A core setter that throws: a date that is not dd.MM.yyyy, or a registration date under ten characters. */
  datatype DetailError = UnparsableDate(text: string) | ShortRegistrationDate(text: string)

  function ParseDate(text: string): (r: Result<Date, DetailError>)
    ensures r.Success? <==> ParseDotted(text).Some?
    ensures r.Success? ==> ParseDotted(text) == Some(r.value)
  {
    match ParseDotted(text)
    case Some(d) => Success(d)
    case None => Failure(UnparsableDate(text))
  }

  /**
   * setCoreField for the property a core label selects: text properties take
   * the value, dates are parsed as dd.MM.yyyy (the registration date from its
   * first ten characters only), and nothing else changes.
   */
  function SetCoreField(patent: Record, q: Property, value: string): (r: Result<Record, DetailError>)
    ensures r.Success? ==> SameUntouched(patent, r.value)
    ensures r.Success? ==> forall o :: o != q ==> Get(r.value, o) == Get(patent, o)
    ensures !IsDateProperty(q) ==> r.Success? && Get(r.value, q) == Text(Some(value))
    ensures q == RegistrationDate ==>
              (r.Success? <==> |value| >= 10 && ParseDotted(value[..10]).Some?) &&
              (r.Success? ==> Get(r.value, q) == Day(ParseDotted(value[..10])))
    ensures IsDateProperty(q) && q != RegistrationDate ==>
              (r.Success? <==> ParseDotted(value).Some?) &&
              (r.Success? ==> Get(r.value, q) == Day(ParseDotted(value)))
  {
    match q
    case Title => Success(patent.(title := Some(value)))
    case ApplicationNumber => Success(patent.(applicationNumber := Some(value)))
    case FilingDate =>
      var d :- ParseDate(value);
      Success(patent.(filingDate := Some(d)))
    case RegistrationDate =>
      if |value| < 10 then Failure(ShortRegistrationDate(value))
      else
        var d :- ParseDate(value[..10]);
        Success(patent.(registrationDate := Some(d)))
    case ExpirationDate =>
      var d :- ParseDate(value);
      Success(patent.(expirationDate := Some(d)))
    case Authors => Success(patent.(authors := Some(value)))
    case PatentHolder => Success(patent.(patentHolder := Some(value)))
    case SecurityDocNumber => Success(patent.(securityDocNumber := Some(value)))
    case RegistrationNumber => Success(patent.(registrationNumber := Some(value)))
    case Status => Success(patent.(status := Some(value)))
    case Ipc => Success(patent.(ipc := Some(value)))
    case Mkpo => Success(patent.(mkpo := Some(value)))
    case BulletinNumber => Success(patent.(bulletinNumber := Some(value)))
    case BulletinDate =>
      var d :- ParseDate(value);
      Success(patent.(bulletinDate := Some(d)))
    case Owner => Success(patent.(owner := Some(value)))
    case SortName => Success(patent.(sortName := Some(value)))
  }

  /** The lookup answers with the first entry carrying the label. */
  lemma {:induction false} LookupFirst(table: seq<(string, Property)>, fieldLabel: string, k: nat)
    requires k < |table| && table[k].0 == fieldLabel
    requires forall j :: 0 <= j < k ==> table[j].0 != fieldLabel
    ensures LookupLabel(table, fieldLabel) == Some(table[k].1)
  {
    if k > 0 {
      LookupFirst(table[1..], fieldLabel, k - 1);
    }
  }

  // ---------------------------------------------------------------------------
  // The record built from a detail page
  // ---------------------------------------------------------------------------

  /** One `li` of the detail list: the bold label text, the span text, and the span link's absolute href ("" when absent). */
  datatype DetailItem = DetailItem(strongText: string, spanText: string, linkHref: string)

  /** A fetched detail page: its list items in document order and the absolute src of its first plan image, if any. */
  datatype DetailPage = DetailPage(items: seq<DetailItem>, image: Option<string>)

  /** What one list item contributes. */
  datatype ItemEffect = Skip | Core(property: Property, value: string) | Extra(attribute: Attribute)

  /** The two labels whose value is the link target rather than the text. */
  predicate IsLinkLabel(fieldLabel: string) {
    fieldLabel == "Реферат/Описание" || fieldLabel == "Описания"
  }

  function ItemEffectOf(item: DetailItem): (e: ItemEffect)
    ensures e.Extra? ==> e.attribute.fieldLabel != [] && !IsCoreField(e.attribute.fieldLabel)
    ensures e.Core? ==> e.property != Authors
  {
    var fieldLabel := NormalizeLabel(Trim(item.strongText));
    var value := Trim(item.spanText);
    if fieldLabel == [] || value == [] then Skip
    else
      var v := if IsLinkLabel(fieldLabel) then item.linkHref else value;
      match CoreProperty(fieldLabel)
      case Some(q) =>
        AuthorsLabelUnreachable(Trim(item.strongText));
        Core(q, v)
      case None => Extra(Attribute(fieldLabel, v))
  }

  /** The record and extension list while the items are being read. */
  datatype Partial = Partial(patent: Record, fields: seq<Attribute>)

  function ApplyEffect(acc: Partial, e: ItemEffect): Result<Partial, DetailError> {
    match e
    case Skip => Success(acc)
    case Core(q, value) =>
      var p :- SetCoreField(acc.patent, q, value);
      Success(Partial(p, acc.fields))
    case Extra(a) => Success(Partial(acc.patent, acc.fields + [a]))
  }

  /** The effects of a page's items, in document order. */
  function Effects(items: seq<DetailItem>): (es: seq<ItemEffect>)
    ensures |es| == |items|
    decreases |items|
  {
    if items == [] then [] else Effects(items[..|items| - 1]) + [ItemEffectOf(items[|items| - 1])]
  }

  lemma EffectsSnoc(items: seq<DetailItem>, item: DetailItem)
    ensures Effects(items + [item]) == Effects(items) + [ItemEffectOf(item)]
  {
    assert (items + [item])[..|items|] == items;
  }

  /** The effects applied in order; the first setter that throws aborts the page. */
  function ApplyEffects(start: Record, es: seq<ItemEffect>): Result<Partial, DetailError>
    decreases |es|
  {
    if es == [] then Success(Partial(start, []))
    else
      var acc :- ApplyEffects(start, es[..|es| - 1]);
      ApplyEffect(acc, es[|es| - 1])
  }

  lemma ApplyEffectsSnoc(start: Record, es: seq<ItemEffect>, e: ItemEffect)
    ensures ApplyEffects(start, es + [e]) ==
            if ApplyEffects(start, es).Failure? then ApplyEffects(start, es)
            else ApplyEffect(ApplyEffects(start, es).value, e)
  {
    assert (es + [e])[..|es|] == es;
  }

  function FreshDetail(docNumber: string, category: string): Record {
    Blank.(docNumber := Some(docNumber), category := Some(category), patentSite := Some(RegistrySite))
  }

  /** The record fetchPatentDetails returns for a page it could download. */
  function DetailRecord(docNumber: string, category: string, page: DetailPage): Result<Record, DetailError> {
    var acc :- ApplyEffects(FreshDetail(docNumber, category), Effects(page.items));
    var withImage := if page.image.Some? then acc.patent.(imageUrl := page.image) else acc.patent;
    Success(withImage.(additionalFields := Some(acc.fields)))
  }

  /** Reading the items of a downloaded page, as the loop over `li` elements does. */
  method BuildDetail(docNumber: string, category: string, page: DetailPage) returns (r: Result<Record, DetailError>)
    ensures r == DetailRecord(docNumber, category, page)
  {
    var start := FreshDetail(docNumber, category);
    ghost var es := Effects(page.items);
    var patent := start;
    var additionalFields: seq<Attribute> := [];
    for k := 0 to |page.items|
      invariant ApplyEffects(start, es[..k]) == Success(Partial(patent, additionalFields))
    {
      var effect := ItemEffectOf(page.items[k]);
      EffectAt(page.items, k);
      NextEffect(start, es, k, Partial(patent, additionalFields));
      var next := ApplyItem(patent, additionalFields, effect);
      if next.Failure? {
        ApplyEffectsAbortPersists(start, es, k + 1);
        return Failure(next.error);
      }
      patent, additionalFields := next.value.patent, next.value.fields;
    }
    assert es[..|es|] == es;
    if page.image.Some? {
      patent := patent.(imageUrl := page.image);
    }
    r := Success(patent.(additionalFields := Some(additionalFields)));
  }

  /** Applying effect `k` after the first `k` effects gave `acc`. */
  lemma NextEffect(start: Record, es: seq<ItemEffect>, k: nat, acc: Partial)
    requires k < |es| && ApplyEffects(start, es[..k]) == Success(acc)
    ensures ApplyEffects(start, es[..k + 1]) == ApplyEffect(acc, es[k])
  {
    assert es[..k + 1][..k] == es[..k];
  }

  /** Item `k`'s effect is the `k`-th of the page's effects. */
  lemma EffectAt(items: seq<DetailItem>, k: nat)
    requires k < |items|
    ensures Effects(items)[k] == ItemEffectOf(items[k])
  {
    EffectsPrefix(items, k + 1);
    EffectsLast(items[..k + 1]);
  }

  lemma EffectsLast(items: seq<DetailItem>)
    requires items != []
    ensures Effects(items)[|items| - 1] == ItemEffectOf(items[|items| - 1])
  {
  }

  /** One item of the loop: a core setter call, an appended attribute, or nothing. */
  method ApplyItem(patent: Record, additionalFields: seq<Attribute>, effect: ItemEffect)
    returns (r: Result<Partial, DetailError>)
    ensures r == ApplyEffect(Partial(patent, additionalFields), effect)
  {
    match effect {
      case Skip =>
        r := Success(Partial(patent, additionalFields));
      case Core(q, value) =>
        var written := SetCoreField(patent, q, value);
        if written.Failure? {
          return Failure(written.error);
        }
        r := Success(Partial(written.value, additionalFields));
      case Extra(a) =>
        r := Success(Partial(patent, additionalFields + [a]));
    }
  }

  lemma {:induction false} EffectsPrefix(items: seq<DetailItem>, k: nat)
    requires k <= |items|
    ensures Effects(items)[..k] == Effects(items[..k])
    decreases |items|
  {
    if k < |items| {
      var init := items[..|items| - 1];
      EffectsPrefix(init, k);
      assert init[..k] == items[..k];
      assert Effects(items)[..k] == Effects(init)[..k];
    } else {
      assert items[..k] == items;
    }
  }

  /** Once a setter has thrown, no later item can rescue the page. */
  lemma {:induction false} ApplyEffectsAbortPersists(start: Record, es: seq<ItemEffect>, k: nat)
    requires 0 < k <= |es| && ApplyEffects(start, es[..k]).Failure?
    ensures ApplyEffects(start, es) == ApplyEffects(start, es[..k])
    decreases |es| - k
  {
    if k < |es| {
      ApplyEffectsSnoc(start, es[..k], es[k]);
      assert es[..k + 1] == es[..k] + [es[k]];
      ApplyEffectsAbortPersists(start, es, k + 1);
    } else {
      assert es[..k] == es;
    }
  }

  /** The effects an item can have: never the authors, never an empty or core extension label. */
  ghost predicate Admissible(es: seq<ItemEffect>) {
    forall k :: 0 <= k < |es| ==>
      (es[k].Core? ==> es[k].property != Authors) &&
      (es[k].Extra? ==> es[k].attribute.fieldLabel != [] && !IsCoreField(es[k].attribute.fieldLabel))
  }

  /**
   * Applying admissible effects never touches the authors, the document
   * number, the category, the site, the image or the name, and every
   * extension attribute has a non-empty label outside the core list.
   */
  lemma {:induction false} ApplyEffectsKeeps(start: Record, es: seq<ItemEffect>)
    requires Admissible(es) && ApplyEffects(start, es).Success?
    ensures var acc := ApplyEffects(start, es).value;
            SameUntouched(start, acc.patent) && acc.patent.authors == start.authors
    ensures forall a :: a in ApplyEffects(start, es).value.fields ==> a.fieldLabel != [] && !IsCoreField(a.fieldLabel)
    decreases |es|
  {
    if es != [] {
      var init := es[..|es| - 1];
      var last := es[|es| - 1];
      assert es == init + [last];
      ApplyEffectsSnoc(start, init, last);
      assert Admissible(init) by {
        forall k | 0 <= k < |init| ensures init[k] == es[k] { }
      }
      ApplyEffectsKeeps(start, init);
      var acc := ApplyEffects(start, init).value;
      match last {
        case Skip =>
        case Core(q, value) =>
          var written := SetCoreField(acc.patent, q, value);
          assert Get(written.value, Authors) == Get(acc.patent, Authors);
        case Extra(a) =>
      }
    }
  }

  lemma {:induction false} EffectsAdmissible(items: seq<DetailItem>)
    ensures Admissible(Effects(items))
    decreases |items|
  {
    if items != [] {
      EffectsAdmissible(items[..|items| - 1]);
      var es := Effects(items);
      assert es == Effects(items[..|items| - 1]) + [ItemEffectOf(items[|items| - 1])];
    }
  }

  /** A detail page never sets the authors: the only label routed there cannot survive the clean-up. */
  lemma DetailNeverSetsAuthors(docNumber: string, category: string, page: DetailPage)
    requires DetailRecord(docNumber, category, page).Success?
    ensures DetailRecord(docNumber, category, page).value.authors.None?
    ensures DetailRecord(docNumber, category, page).value.docNumber == Some(docNumber)
    ensures DetailRecord(docNumber, category, page).value.category == Some(category)
    ensures DetailRecord(docNumber, category, page).value.patentSite == Some(RegistrySite)
    ensures DetailRecord(docNumber, category, page).value.imageUrl == page.image
    ensures DetailRecord(docNumber, category, page).value.additionalFields.Some?
    ensures forall a :: a in DetailRecord(docNumber, category, page).value.additionalFields.value ==>
              a.fieldLabel != [] && !IsCoreField(a.fieldLabel)
  {
    var es := Effects(page.items);
    EffectsAdmissible(page.items);
    ApplyEffectsKeeps(FreshDetail(docNumber, category), es);
  }

  /** An item with an empty label or an empty value is skipped. */
  lemma EmptyItemIsSkipped(item: DetailItem)
    requires NormalizeLabel(Trim(item.strongText)) == [] || Trim(item.spanText) == []
    ensures ItemEffectOf(item) == Skip
  {
  }

  /** An item with a non-core label and a value appends exactly one attribute, after those already read. */
  lemma ExtraItemAppends(start: Record, items: seq<DetailItem>, item: DetailItem)
    requires ApplyEffects(start, Effects(items)).Success? && ItemEffectOf(item).Extra?
    ensures ApplyEffects(start, Effects(items + [item])) ==
            Success(Partial(ApplyEffects(start, Effects(items)).value.patent,
                            ApplyEffects(start, Effects(items)).value.fields + [ItemEffectOf(item).attribute]))
  {
    EffectsSnoc(items, item);
    ApplyEffectsSnoc(start, Effects(items), ItemEffectOf(item));
  }

  /** An item with an empty label or an empty value contributes nothing to the page's record. */
  lemma EmptyItemSkipped(start: Record, items: seq<DetailItem>, item: DetailItem)
    requires NormalizeLabel(Trim(item.strongText)) == [] || Trim(item.spanText) == []
    ensures ApplyEffects(start, Effects(items + [item])) == ApplyEffects(start, Effects(items))
  {
    EffectsSnoc(items, item);
    EmptyItemIsSkipped(item);
    ApplyEffectsSnoc(start, Effects(items), Skip);
  }

  // ---------------------------------------------------------------------------
  // Merging the detail record into the card record
  // ---------------------------------------------------------------------------

  /** The detail's value when it has one, the card's otherwise. */
  function Pick<T>(detail: Option<T>, summary: Option<T>): (r: Option<T>)
    ensures detail.Some? ==> r == detail
    ensures detail.None? ==> r == summary
  {
    if detail.Some? then detail else summary
  }

  /**
   * mergePatentData: each copied property of the card record is overwritten
   * with the detail's value when that is not null; a null detail throws (None).
   */
  function MergePatentData(patent: Record, detail: Option<Record>): Option<Record> {
    match detail
    case None => None
    case Some(d) =>
      Some(patent.(
        title := Pick(d.title, patent.title),
        status := Pick(d.status, patent.status),
        securityDocNumber := Pick(d.securityDocNumber, patent.securityDocNumber),
        registrationNumber := Pick(d.registrationNumber, patent.registrationNumber),
        applicationNumber := Pick(d.applicationNumber, patent.applicationNumber),
        authors := Pick(d.authors, patent.authors),
        filingDate := Pick(d.filingDate, patent.filingDate),
        registrationDate := Pick(d.registrationDate, patent.registrationDate),
        expirationDate := Pick(d.expirationDate, patent.expirationDate),
        bulletinNumber := Pick(d.bulletinNumber, patent.bulletinNumber),
        bulletinDate := Pick(d.bulletinDate, patent.bulletinDate),
        ipc := Pick(d.ipc, patent.ipc),
        sortName := Pick(d.sortName, patent.sortName),
        patentHolder := Pick(d.patentHolder, patent.patentHolder),
        owner := Pick(d.owner, patent.owner),
        docNumber := Pick(d.docNumber, patent.docNumber),
        imageUrl := Pick(d.imageUrl, patent.imageUrl),
        additionalFields := Pick(d.additionalFields, patent.additionalFields)))
  }

  /** Merging fails exactly when there is no detail. */
  lemma MergeNeedsDetail(patent: Record, detail: Option<Record>)
    ensures MergePatentData(patent, detail).None? <==> detail.None?
  {
  }

  /** The classification, category, site and name are never taken from the detail. */
  lemma MergeNeverCopies(patent: Record, detail: Record)
    ensures var m := MergePatentData(patent, Some(detail)).value;
            m.mkpo == patent.mkpo && m.category == patent.category &&
            m.patentSite == patent.patentSite && m.name == patent.name
  {
  }

  /** A detail value that is present wins; an absent one keeps the card's value. */
  lemma MergeDetailWins(patent: Record, detail: Record, q: Property)
    requires q != Mkpo
    ensures var m := MergePatentData(patent, Some(detail)).value;
            (Get(detail, q) == Text(None) || Get(detail, q) == Day(None) ==> Get(m, q) == Get(patent, q)) &&
            (Get(detail, q) != Text(None) && Get(detail, q) != Day(None) ==> Get(m, q) == Get(detail, q))
  {
  }

  /** Merging the same detail twice changes nothing more. */
  lemma MergeIsIdempotent(patent: Record, detail: Record)
    ensures MergePatentData(MergePatentData(patent, Some(detail)).value, Some(detail)) ==
            MergePatentData(patent, Some(detail))
  {
  }

  /** A detail with nothing set leaves the card record as it was. */
  lemma MergeWithBlankDetail(patent: Record)
    ensures MergePatentData(patent, Some(Blank)) == Some(patent)
  {
  }

  /** Merging a detail page's record always replaces the card's extension list and never touches its authors. */
  lemma MergeOfDetailRecord(patent: Record, docNumber: string, category: string, page: DetailPage)
    requires DetailRecord(docNumber, category, page).Success?
    ensures var m := MergePatentData(patent, Some(DetailRecord(docNumber, category, page).value)).value;
            m.authors == patent.authors && m.docNumber == Some(docNumber) &&
            m.additionalFields == DetailRecord(docNumber, category, page).value.additionalFields
  {
    DetailNeverSetsAuthors(docNumber, category, page);
  }

  // ---------------------------------------------------------------------------
  // Fetching the detail page
  // ---------------------------------------------------------------------------

  /** url.substring(url.lastIndexOf("=") + 1): the detail URL's document number. */
  function DocNumberOf(url: string): (docNumber: string)
    ensures '=' !in docNumber
    ensures '=' !in url ==> docNumber == url
    ensures '=' in url ==> exists prefix :: url == prefix + "=" + docNumber
  {
    var r := AfterLast(url, '=');
    if '=' in url then
      assert url == url[..|url| - |r| - 1] + "=" + r;
      r
    else r
  }

  /** What one connection attempt produced. */
  datatype FetchOutcome =
    | SocketTimeout
    | HttpStatus(code: int)
    | IoFailure
    | Downloaded(page: DetailPage)

  /**
   * fetchPatentDetails' result: the record, null, a setter's exception
   * escaping to the caller, or no result yet because the outcomes ran out
   * while the loop would go on.
   */
  datatype FetchResult = Detail(patent: Record) | NoDetail | DetailThrew(error: DetailError) | FetchUnfinished

  /** The result, and whether the document number was written to the ledger as not parsed. */
  datatype Fetch = Fetch(result: FetchResult, ledgerWrite: bool)

  /** The retry loop: a socket timeout costs an attempt, a status other than 500 costs nothing. */
  function FetchRun(docNumber: string, category: string, attempts: int, outcomes: seq<FetchOutcome>): (f: Fetch)
    ensures f.ledgerWrite ==> f.result == NoDetail
    decreases |outcomes|
  {
    if attempts <= 0 then Fetch(NoDetail, false)
    else if outcomes == [] then Fetch(FetchUnfinished, false)
    else
      match outcomes[0]
      case SocketTimeout => FetchRun(docNumber, category, attempts - 1, outcomes[1..])
      case HttpStatus(code) =>
        if code == 500 then Fetch(NoDetail, true)
        else FetchRun(docNumber, category, attempts, outcomes[1..])
      case IoFailure => Fetch(NoDetail, true)
      case Downloaded(page) =>
        match DetailRecord(docNumber, category, page)
        case Success(p) => Fetch(Detail(p), false)
        case Failure(e) => Fetch(DetailThrew(e), false)
  }

  const FetchAttempts: int := 3

  /**
   * fetchPatentDetails: up to three timed-out connections; an HTTP 500 or any
   * other I/O error records the document number as not parsed and gives null.
   */
  method FetchPatentDetails(url: string, category: string, outcomes: seq<FetchOutcome>, ledger: DocNumberStore)
    returns (r: FetchResult)
    requires ledger.Valid()
    modifies ledger`entries
    ensures ledger.Valid()
    ensures r == FetchRun(DocNumberOf(url), category, FetchAttempts, outcomes).result
    ensures ledger.entries ==
            if FetchRun(DocNumberOf(url), category, FetchAttempts, outcomes).ledgerWrite
            then Saved(old(ledger.entries), ledger.available, category, DocNumberOf(url), false)
            else old(ledger.entries)
  {
    var attempts := FetchAttempts;
    var docNumber := DocNumberOf(url);
    var i := 0;
    ghost var run := FetchRun(docNumber, category, FetchAttempts, outcomes);
    assert outcomes[i..] == outcomes;
    while attempts > 0
      invariant 0 <= i <= |outcomes|
      invariant run == FetchRun(docNumber, category, attempts, outcomes[i..])
      invariant ledger.entries == old(ledger.entries)
      decreases |outcomes| - i
    {
      if i == |outcomes| {
        return FetchUnfinished;
      }
      FetchNext(docNumber, category, attempts, outcomes, i);
      match outcomes[i] {
        case SocketTimeout =>
          attempts := attempts - 1;
        case HttpStatus(code) =>
          if code == 500 {
            ledger.SaveDocNumber(category, docNumber, false);
            return NoDetail;
          }
        case IoFailure =>
          ledger.SaveDocNumber(category, docNumber, false);
          return NoDetail;
        case Downloaded(page) =>
          var built := BuildDetail(docNumber, category, page);
          FetchDownloaded(docNumber, category, attempts, outcomes, i, built);
          if built.Success? {
            return Detail(built.value);
          } else {
            return DetailThrew(built.error);
          }
      }
      i := i + 1;
    }
    r := NoDetail;
  }

  /** One connection outcome of the fetch, with attempts left. */
  lemma FetchNext(docNumber: string, category: string, attempts: int, outcomes: seq<FetchOutcome>, i: nat)
    requires attempts > 0 && i < |outcomes|
    ensures outcomes[i].SocketTimeout? ==>
              FetchRun(docNumber, category, attempts, outcomes[i..]) == FetchRun(docNumber, category, attempts - 1, outcomes[i + 1..])
    ensures outcomes[i].HttpStatus? && outcomes[i].code != 500 ==>
              FetchRun(docNumber, category, attempts, outcomes[i..]) == FetchRun(docNumber, category, attempts, outcomes[i + 1..])
    ensures (outcomes[i].HttpStatus? && outcomes[i].code == 500) || outcomes[i].IoFailure? ==>
              FetchRun(docNumber, category, attempts, outcomes[i..]) == Fetch(NoDetail, true)
  {
    assert outcomes[i..][0] == outcomes[i] && outcomes[i..][1..] == outcomes[i + 1..];
  }

  /** A downloaded page ends the fetch with the page's record or the exception reading it. */
  lemma FetchDownloaded(docNumber: string, category: string, attempts: int, outcomes: seq<FetchOutcome>, i: nat,
                        built: Result<Record, DetailError>)
    requires attempts > 0 && i < |outcomes| && outcomes[i].Downloaded?
    requires built == DetailRecord(docNumber, category, outcomes[i].page)
    ensures built.Success? ==> FetchRun(docNumber, category, attempts, outcomes[i..]) == Fetch(Detail(built.value), false)
    ensures built.Failure? ==> FetchRun(docNumber, category, attempts, outcomes[i..]) == Fetch(DetailThrew(built.error), false)
  {
    assert outcomes[i..][0] == outcomes[i];
  }

  /** A fetched record is the detail page's record for the document number asked for. */
  lemma {:induction false} FetchedDetailNamesDocument(docNumber: string, category: string, attempts: int, outcomes: seq<FetchOutcome>)
    ensures var f := FetchRun(docNumber, category, attempts, outcomes);
            f.result.Detail? ==>
              f.result.patent.docNumber == Some(docNumber) && f.result.patent.authors.None? &&
              f.result.patent.additionalFields.Some?
    decreases |outcomes|
  {
    if attempts > 0 && outcomes != [] {
      match outcomes[0]
      case SocketTimeout => FetchedDetailNamesDocument(docNumber, category, attempts - 1, outcomes[1..]);
      case HttpStatus(code) =>
        if code != 500 {
          FetchedDetailNamesDocument(docNumber, category, attempts, outcomes[1..]);
        }
      case IoFailure =>
      case Downloaded(page) =>
        if DetailRecord(docNumber, category, page).Success? {
          DetailNeverSetsAuthors(docNumber, category, page);
        }
    }
  }

  /** Three socket timeouts in a row give up with null and write nothing. */
  lemma ThreeTimeoutsGiveUp(docNumber: string, category: string, rest: seq<FetchOutcome>)
    ensures FetchRun(docNumber, category, FetchAttempts, [SocketTimeout, SocketTimeout, SocketTimeout] + rest) ==
            Fetch(NoDetail, false)
  {
    var s := [SocketTimeout, SocketTimeout, SocketTimeout] + rest;
    assert s[1..] == [SocketTimeout, SocketTimeout] + rest;
    assert s[1..][1..] == [SocketTimeout] + rest;
    assert FetchRun(docNumber, category, 1, s[1..][1..]) == FetchRun(docNumber, category, 0, rest);
    assert FetchRun(docNumber, category, 2, s[1..]) == FetchRun(docNumber, category, 1, s[1..][1..]);
  }

  /** A status other than 500 is retried without spending an attempt. */
  lemma StatusRetryIsFree(docNumber: string, category: string, attempts: int, code: int, rest: seq<FetchOutcome>)
    requires attempts > 0 && code != 500
    ensures FetchRun(docNumber, category, attempts, [HttpStatus(code)] + rest) == FetchRun(docNumber, category, attempts, rest)
  {
    assert ([HttpStatus(code)] + rest)[1..] == rest;
  }

  /** A server that keeps answering with a status other than 500 keeps the loop going for ever. */
  lemma {:induction false} StatusLoopNeverEnds(docNumber: string, category: string, attempts: int, code: int, n: nat)
    requires attempts > 0 && code != 500
    ensures FetchRun(docNumber, category, attempts, seq(n, k => HttpStatus(code))).result == FetchUnfinished
  {
    if n > 0 {
      var s := seq(n, k => HttpStatus(code));
      assert s[1..] == seq(n - 1, k => HttpStatus(code));
      StatusLoopNeverEnds(docNumber, category, attempts, code, n - 1);
    }
  }

  predicate IsRetryStatus(o: FetchOutcome) {
    o.HttpStatus? && o.code != 500
  }

  /** Without such statuses the loop ends within as many outcomes as it has attempts left. */
  lemma {:induction false} FetchEndsWithoutStatusRetries(docNumber: string, category: string, attempts: nat, outcomes: seq<FetchOutcome>)
    requires |outcomes| >= attempts
    requires forall k :: 0 <= k < |outcomes| ==> !IsRetryStatus(outcomes[k])
    ensures FetchRun(docNumber, category, attempts, outcomes).result != FetchUnfinished
    decreases attempts
  {
    if attempts > 0 && outcomes[0] == SocketTimeout {
      FetchEndsWithoutStatusRetries(docNumber, category, attempts - 1, outcomes[1..]);
    }
  }
}
