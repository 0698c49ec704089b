/**
 * The electronic-bulletin harvester: bulletin API records are converted to
 * patent records with an ordered list of guarded extension attributes, and
 * the bulletin dates of a year are walked page by page with one page
 * counter shared by all dates.
 */
module EbulletinPatentParser {
  import opened Wrappers
  import opened LocalDates
  import opened PatentModel

  // ---------------------------------------------------------------------------
  // Converting a bulletin record
  // ---------------------------------------------------------------------------

  const EbulletinSite: string := "ebulletin.kazpatent.kz"

  /**
   * The field of the bulletin record an extension label stands for; the image
   * counts only when it is not empty.
   */
  function DtoValue(dto: PatentDto, fieldLabel: string): Option<string> {
    if fieldLabel == "code_13" then dto.code13
    else if fieldLabel == "field_31" then dto.field31
    else if fieldLabel == "field_32" then dto.field32
    else if fieldLabel == "field_33" then dto.field33
    else if fieldLabel == "date_85" then dto.date85
    else if fieldLabel == "field_86" then dto.field86
    else if fieldLabel == "field_181" then dto.field181
    else if fieldLabel == "field_730" then dto.field730Ru
    else if fieldLabel == "field_526" then dto.field526Ru
    else if fieldLabel == "field_591" then dto.field591
    else if fieldLabel == "field_510" then dto.field510511
    else if fieldLabel == "description" || fieldLabel == "referat" then dto.description
    else if fieldLabel == "image_base64" then
      (if dto.imageBase64.Some? && dto.imageBase64.value != [] then dto.imageBase64 else None)
    else None
  }

  /** The extension labels this converter writes, in the order it writes them. */
  const BulletinLabels: seq<string> :=
    ["code_13", "field_31", "field_32", "field_33", "date_85", "field_86", "referat", "image_base64"]

  /** One attribute per label, in label order, for each label whose field is set. */
  function LabelledFields(labels: seq<string>, dto: PatentDto): (fields: seq<Attribute>)
    ensures |fields| <= |labels|
  {
    if labels == [] then []
    else
      var front := LabelledFields(labels[..|labels| - 1], dto);
      var last := labels[|labels| - 1];
      match DtoValue(dto, last)
      case None => front
      case Some(v) => front + [Attribute(last, v)]
  }

  /** Every label appears at most once. */
  predicate DistinctLabels(labels: seq<string>) {
    forall i, j :: 0 <= i < j < |labels| ==> labels[i] != labels[j]
  }

  /** The attributes, in order, carry labels that occur in this order in `labels`. */
  predicate InLabelOrder(fields: seq<Attribute>, labels: seq<string>) {
    forall i, j :: 0 <= i < j < |fields| ==>
      exists p, q :: 0 <= p < q < |labels| && labels[p] == fields[i].fieldLabel && labels[q] == fields[j].fieldLabel
  }

  /**
   * The attribute list holds, for each label whose field is set, exactly that
   * field's value, and nothing else; with distinct labels it follows the
   * label order.
   */
  lemma LabelledFieldsMeaning(labels: seq<string>, dto: PatentDto)
    ensures var fields := LabelledFields(labels, dto);
            forall k :: 0 <= k < |fields| ==> fields[k].fieldLabel in labels && DtoValue(dto, fields[k].fieldLabel) == Some(fields[k].value)
    ensures var fields := LabelledFields(labels, dto);
            forall i :: 0 <= i < |labels| && DtoValue(dto, labels[i]).Some? ==> Attribute(labels[i], DtoValue(dto, labels[i]).value) in fields
    ensures DistinctLabels(labels) ==> InLabelOrder(LabelledFields(labels, dto), labels)
  {
    LabelledFieldsSound(labels, dto);
    LabelledFieldsComplete(labels, dto);
    if DistinctLabels(labels) {
      LabelledFieldsOrdered(labels, dto);
    }
  }

  /** The last label's attribute, if its field is set, comes after those of the labels before it. */
  lemma LabelledFieldsLast(labels: seq<string>, dto: PatentDto)
    requires labels != []
    ensures LabelledFields(labels, dto) ==
            LabelledFields(labels[..|labels| - 1], dto) + Present(labels[|labels| - 1], DtoValue(dto, labels[|labels| - 1]))
  {
  }

  lemma {:induction false} LabelledFieldsSound(labels: seq<string>, dto: PatentDto)
    ensures var fields := LabelledFields(labels, dto);
            forall k :: 0 <= k < |fields| ==> fields[k].fieldLabel in labels && DtoValue(dto, fields[k].fieldLabel) == Some(fields[k].value)
    decreases |labels|
  {
    if labels != [] {
      var init, last := labels[..|labels| - 1], labels[|labels| - 1];
      LabelledFieldsSound(init, dto);
      LabelledFieldsLast(labels, dto);
      assert labels == init + [last];
      var front, fields := LabelledFields(init, dto), LabelledFields(labels, dto);
      forall k | 0 <= k < |fields|
        ensures fields[k].fieldLabel in labels && DtoValue(dto, fields[k].fieldLabel) == Some(fields[k].value)
      {
        if k < |front| {
          assert fields[k] == front[k];
        } else {
          assert fields[k] == Attribute(last, DtoValue(dto, last).value);
        }
      }
    }
  }

  lemma {:induction false} LabelledFieldsComplete(labels: seq<string>, dto: PatentDto)
    ensures var fields := LabelledFields(labels, dto);
            forall i :: 0 <= i < |labels| && DtoValue(dto, labels[i]).Some? ==> Attribute(labels[i], DtoValue(dto, labels[i]).value) in fields
    decreases |labels|
  {
    if labels != [] {
      var init := labels[..|labels| - 1];
      LabelledFieldsComplete(init, dto);
      LabelledFieldsLast(labels, dto);
      var front, fields := LabelledFields(init, dto), LabelledFields(labels, dto);
      assert forall a :: a in front ==> a in fields;
      forall i | 0 <= i < |init| ensures labels[i] == init[i] {
      }
    }
  }

  lemma {:induction false} LabelledFieldsOrdered(labels: seq<string>, dto: PatentDto)
    requires DistinctLabels(labels)
    ensures InLabelOrder(LabelledFields(labels, dto), labels)
    decreases |labels|
  {
    if labels != [] {
      var init, last := labels[..|labels| - 1], labels[|labels| - 1];
      assert DistinctLabels(init);
      LabelledFieldsOrdered(init, dto);
      LabelledFieldsSound(init, dto);
      LabelledFieldsLast(labels, dto);
      var front, fields := LabelledFields(init, dto), LabelledFields(labels, dto);
      forall i, j | 0 <= i < j < |fields|
        ensures exists p, q :: 0 <= p < q < |labels| && labels[p] == fields[i].fieldLabel && labels[q] == fields[j].fieldLabel
      {
        assert fields[i] == front[i];
        if j < |front| {
          assert fields[j] == front[j];
          var p, q :| 0 <= p < q < |init| && init[p] == front[i].fieldLabel && init[q] == front[j].fieldLabel;
          assert labels[p] == init[p] && labels[q] == init[q];
        } else {
          assert front[i].fieldLabel in init;
          var p :| 0 <= p < |init| && init[p] == front[i].fieldLabel;
          assert labels[p] == init[p] && last == fields[j].fieldLabel;
        }
      }
    }
  }

  /** LocalDate.parse with dd.MM.yyyy; a missing text throws as a malformed one does. */
  function ParseDate(text: Option<string>): Option<Date> {
    if text.None? then None else ParseDotted(text.value)
  }

  /**
   * convertToEntity's result for a site and a label table: the core fields
   * copied from the bulletin record, both dates parsed, and the labelled
   * extension attributes; `None` when a date does not parse (the exception
   * the caller catches).
   */
  function EntityOf(dto: PatentDto, site: string, category: string, labels: seq<string>): Option<Record> {
    var filingDate := ParseDate(dto.applicationDate);
    var bulletinDate := ParseDate(dto.publicationDate);
    if filingDate.None? || bulletinDate.None? then None
    else
      Some(Blank.(patentSite := Some(site), category := Some(category), securityDocNumber := dto.securityDocNumber,
                  applicationNumber := dto.applicationNumber, filingDate := filingDate,
                  bulletinNumber := dto.bulletinNumber, bulletinDate := bulletinDate, ipc := dto.ipcCodes,
                  authors := dto.authorsRu, owner := dto.ownerRu, title := dto.titleRu,
                  additionalFields := Some(LabelledFields(labels, dto))))
  }

  /** convertToEntity: the bulletin record as a patent record of this site. */
  method ConvertToEntity(dto: PatentDto, category: string) returns (patent: Option<Record>)
    ensures patent == EntityOf(dto, EbulletinSite, category, BulletinLabels)
  {
    var filingDate := ParseDate(dto.applicationDate);
    var bulletinDate := ParseDate(dto.publicationDate);
    if filingDate.None? || bulletinDate.None? {
      return None;
    }
    var additionalFields: seq<Attribute> := [];
    additionalFields := AddIfPresent(additionalFields, "code_13", dto.code13);
    additionalFields := AddIfPresent(additionalFields, "field_31", dto.field31);
    additionalFields := AddIfPresent(additionalFields, "field_32", dto.field32);
    additionalFields := AddIfPresent(additionalFields, "field_33", dto.field33);
    additionalFields := AddIfPresent(additionalFields, "date_85", dto.date85);
    additionalFields := AddIfPresent(additionalFields, "field_86", dto.field86);
    additionalFields := AddIfPresent(additionalFields, "referat", dto.description);
    var patentImage := dto.imageBase64;
    if patentImage.Some? && patentImage.value != [] {
      additionalFields := additionalFields + [Attribute("image_base64", patentImage.value)];
    }
    assert additionalFields == LabelledFields(BulletinLabels, dto) by {
      BulletinFieldsChain(dto);
    }
    patent := Some(Blank.(patentSite := Some(EbulletinSite), category := Some(category),
                          securityDocNumber := dto.securityDocNumber, applicationNumber := dto.applicationNumber,
                          filingDate := filingDate, bulletinNumber := dto.bulletinNumber, bulletinDate := bulletinDate,
                          ipc := dto.ipcCodes, authors := dto.authorsRu, owner := dto.ownerRu, title := dto.titleRu,
                          additionalFields := Some(additionalFields)));
  }

  /** The attribute a set field gives under its label: none for an unset field. */
  function Present(fieldLabel: string, value: Option<string>): seq<Attribute> {
    if value.Some? then [Attribute(fieldLabel, value.value)] else []
  }

  /** addIfPresent: the attribute is appended only when the value is set. */
  method AddIfPresent(additionalFields: seq<Attribute>, fieldLabel: string, value: Option<string>) returns (r: seq<Attribute>)
    ensures r == additionalFields + Present(fieldLabel, value)
  {
    r := additionalFields;
    if value.Some? {
      r := r + [Attribute(fieldLabel, value.value)];
    }
  }

  /** One more label adds that label's attribute, if any, at the end. */
  lemma LabelledFieldsSnoc(labels: seq<string>, fieldLabel: string, dto: PatentDto)
    ensures LabelledFields(labels + [fieldLabel], dto) == LabelledFields(labels, dto) + Present(fieldLabel, DtoValue(dto, fieldLabel))
  {
    assert (labels + [fieldLabel])[..|labels|] == labels;
  }

  /** The bulletin label table, one guarded attribute after another. */
  lemma BulletinFieldsChain(dto: PatentDto)
    ensures LabelledFields(BulletinLabels, dto) ==
            [] + Present("code_13", dto.code13) + Present("field_31", dto.field31) + Present("field_32", dto.field32) +
            Present("field_33", dto.field33) + Present("date_85", dto.date85) + Present("field_86", dto.field86) +
            Present("referat", dto.description) + Present("image_base64", DtoValue(dto, "image_base64"))
  {
    LabelledFieldsSnoc([], "code_13", dto);
    LabelledFieldsSnoc(["code_13"], "field_31", dto);
    LabelledFieldsSnoc(["code_13", "field_31"], "field_32", dto);
    LabelledFieldsSnoc(["code_13", "field_31", "field_32"], "field_33", dto);
    LabelledFieldsSnoc(["code_13", "field_31", "field_32", "field_33"], "date_85", dto);
    LabelledFieldsSnoc(["code_13", "field_31", "field_32", "field_33", "date_85"], "field_86", dto);
    LabelledFieldsSnoc(["code_13", "field_31", "field_32", "field_33", "date_85", "field_86"], "referat", dto);
    LabelledFieldsSnoc(["code_13", "field_31", "field_32", "field_33", "date_85", "field_86", "referat"], "image_base64", dto);
    assert LabelledFields([], dto) == [];
    BulletinLabelsInTurn();
    BulletinValues(dto);
  }

  lemma BulletinLabelsInTurn()
    ensures [] + ["code_13"] == ["code_13"] && ["code_13"] + ["field_31"] == ["code_13", "field_31"]
    ensures ["code_13", "field_31"] + ["field_32"] == ["code_13", "field_31", "field_32"]
    ensures ["code_13", "field_31", "field_32"] + ["field_33"] == ["code_13", "field_31", "field_32", "field_33"]
    ensures ["code_13", "field_31", "field_32", "field_33"] + ["date_85"] == ["code_13", "field_31", "field_32", "field_33", "date_85"]
    ensures ["code_13", "field_31", "field_32", "field_33", "date_85"] + ["field_86"] ==
            ["code_13", "field_31", "field_32", "field_33", "date_85", "field_86"]
    ensures ["code_13", "field_31", "field_32", "field_33", "date_85", "field_86"] + ["referat"] ==
            ["code_13", "field_31", "field_32", "field_33", "date_85", "field_86", "referat"]
    ensures ["code_13", "field_31", "field_32", "field_33", "date_85", "field_86", "referat"] + ["image_base64"] == BulletinLabels
  {
  }

  lemma BulletinValues(dto: PatentDto)
    ensures DtoValue(dto, "code_13") == dto.code13 && DtoValue(dto, "field_31") == dto.field31
    ensures DtoValue(dto, "field_32") == dto.field32 && DtoValue(dto, "field_33") == dto.field33
    ensures DtoValue(dto, "date_85") == dto.date85 && DtoValue(dto, "field_86") == dto.field86
    ensures DtoValue(dto, "referat") == dto.description
  {
  }

  /** The bulletin labels are pairwise distinct. */
  lemma BulletinLabelsDistinct()
    ensures DistinctLabels(BulletinLabels)
  {
    var labels := BulletinLabels;
    forall i, j | 0 <= i < j < |labels|
      ensures labels[i] != labels[j]
    {
      if |labels[i]| == |labels[j]| {
        assert labels[i][|labels[i]| - 1] != labels[j][|labels[j]| - 1] || labels[i][0] != labels[j][0];
      }
    }
  }

  /**
   * Conversion fails exactly when a date is missing or malformed; a converted
   * record carries the bulletin record's core fields and both parsed dates,
   * and no status.
   */
  lemma ConvertedRecordCopiesDto(dto: PatentDto, category: string)
    ensures var r := EntityOf(dto, EbulletinSite, category, BulletinLabels);
            (r.None? <==> ParseDate(dto.applicationDate).None? || ParseDate(dto.publicationDate).None?) &&
            (r.Some? ==>
               r.value.patentSite == Some(EbulletinSite) && r.value.category == Some(category) &&
               r.value.securityDocNumber == dto.securityDocNumber && r.value.applicationNumber == dto.applicationNumber &&
               r.value.title == dto.titleRu && r.value.status.None? &&
               r.value.filingDate == ParseDate(dto.applicationDate) && r.value.bulletinDate == ParseDate(dto.publicationDate))
  {
  }

  /**
   * The attributes of a converted record are the set fields under their
   * labels, in table order, with the image only when it is not empty.
   */
  lemma ConvertedAttributesMeaning(dto: PatentDto, category: string)
    requires EntityOf(dto, EbulletinSite, category, BulletinLabels).Some?
    ensures var fields := EntityOf(dto, EbulletinSite, category, BulletinLabels).value.additionalFields;
            fields == Some(LabelledFields(BulletinLabels, dto)) &&
            InLabelOrder(fields.value, BulletinLabels) &&
            (forall k :: 0 <= k < |fields.value| ==> DtoValue(dto, fields.value[k].fieldLabel) == Some(fields.value[k].value)) &&
            Attribute("image_base64", "") !in fields.value
  {
    BulletinLabelsDistinct();
    LabelledFieldsMeaning(BulletinLabels, dto);
    var fields := LabelledFields(BulletinLabels, dto);
    forall k | 0 <= k < |fields|
      ensures fields[k] != Attribute("image_base64", "")
    {
      if fields[k].fieldLabel == "image_base64" {
        assert DtoValue(dto, "image_base64") == Some(fields[k].value);
      }
    }
  }

  // ---------------------------------------------------------------------------
  // Walking the dates of a year
  // ---------------------------------------------------------------------------

  /** getCategories: the bulletin's category names and the API path of each, in order. */
  const Categories: seq<(string, string)> :=
    [("Изобретения", "select_iz_patent"), ("Полезная модели", "select_pm_patent"), ("Товарные знаки", "select_tzizo")]

  /** One non-empty batch handed to savePatentData. */
  datatype Batch = Batch(date: string, page: int, category: string)

  /**
   * One page of one date, over the three categories in order: `hit(date,
   * page, path)` says whether the category's fetch returned a non-empty,
   * fully converted list (any exception is caught per category and counts
   * as no data).
   */
  function PageBatches(date: string, page: int, hit: (string, int, string) -> bool, j: nat): (found: seq<Batch>)
    requires j <= |Categories|
    ensures forall k :: 0 <= k < |found| ==> found[k].date == date && found[k].page == page
    decreases |Categories| - j
  {
    if j == |Categories| then []
    else
      var rest := PageBatches(date, page, hit, j + 1);
      if hit(date, page, Categories[j].1) then [Batch(date, page, Categories[j].0)] + rest else rest
  }

  /** Whether any category of this page had data. */
  predicate PageHasData(date: string, page: int, hit: (string, int, string) -> bool) {
    PageBatches(date, page, hit, 0) != []
  }

  /** How the page loop of one date ends: at the first page without data, or cut after the page budget. */
  datatype PagesEnd = PagesDone(page: int, batches: seq<Batch>) | PagesUnfinished

  /** The `while (true)` page loop of one date from `page`, with at most `budget` pages visited. */
  function DatePages(date: string, page: int, hit: (string, int, string) -> bool, budget: nat): PagesEnd
    decreases budget
  {
    if budget == 0 then PagesUnfinished
    else
      var found := PageBatches(date, page, hit, 0);
      if found == [] then PagesDone(page, [])
      else
        match DatePages(date, page + 1, hit, budget - 1)
        case PagesUnfinished => PagesUnfinished
        case PagesDone(last, batches) => PagesDone(last, found + batches)
  }

  /**
   * The page loop of a date stops on the first page, from where it started,
   * on which no category had data; every page before it had data; and with
   * enough budget it does reach that page.
   */
  lemma {:induction false} DateStopsAtFirstEmptyPage(date: string, page: int, hit: (string, int, string) -> bool, budget: nat)
    ensures DatePages(date, page, hit, budget).PagesDone? ==>
              var last := DatePages(date, page, hit, budget).page;
              page <= last < page + budget && !PageHasData(date, last, hit) &&
              forall p :: page <= p < last ==> PageHasData(date, p, hit)
    ensures forall last :: page <= last < page + budget && !PageHasData(date, last, hit) &&
                           (forall p :: page <= p < last ==> PageHasData(date, p, hit)) ==>
              DatePages(date, page, hit, budget).PagesDone? && DatePages(date, page, hit, budget).page == last
    decreases budget
  {
    if budget > 0 && PageHasData(date, page, hit) {
      DateStopsAtFirstEmptyPage(date, page + 1, hit, budget - 1);
      forall last | page <= last < page + budget && !PageHasData(date, last, hit) &&
                    (forall p :: page <= p < last ==> PageHasData(date, p, hit))
        ensures DatePages(date, page, hit, budget).PagesDone? && DatePages(date, page, hit, budget).page == last
      {
        assert last != page;
        assert forall p :: page + 1 <= p < last ==> PageHasData(date, p, hit);
      }
    }
  }

  /** What reading one date row gives: a stale element, any other failure, or the row's text. */
  datatype RowRead = RowStale | RowFailed | RowText(text: string)

  const RowAttempts: nat := 3

  /** The stale-element retry of one row: the first read that is not stale, within three attempts. */
  function RowReading(i: nat, attempt: nat, read: (nat, nat) -> RowRead): (r: Option<RowRead>)
    ensures r.Some? ==> !r.value.RowStale?
    decreases RowAttempts - attempt
  {
    if attempt >= RowAttempts then None
    else if read(i, attempt).RowStale? then RowReading(i, attempt + 1, read)
    else Some(read(i, attempt))
  }

  /** How the walk of a year ends: every row seen, a failure outside the retry, or a page loop cut short. */
  datatype YearEnd = YearDone | YearFailed | YearUnfinished

  /** The page counter at the end, the batches saved in order, and how the walk ended. */
  datatype YearRun = YearRun(page: int, batches: seq<Batch>, end: YearEnd)

  /**
   * parseFromYear from row `i` on: `read(i, attempt)` is how reading row `i`
   * goes on each attempt, the date is characters 1 to 10 of the row text, and
   * the page counter carries over from one date to the next.
   */
  function RowsFrom(i: nat, rowCount: nat, page: int, read: (nat, nat) -> RowRead, hit: (string, int, string) -> bool,
                    budget: nat, batches: seq<Batch>): YearRun
    decreases rowCount - i
  {
    if i >= rowCount then YearRun(page, batches, YearDone)
    else
      match RowReading(i, 0, read)
      case None => RowsFrom(i + 1, rowCount, page, read, hit, budget, batches)
      case Some(r) =>
        if r.RowFailed? || |r.text| < 11 then YearRun(page, batches, YearFailed)
        else
          match DatePages(r.text[1..11], page, hit, budget)
          case PagesUnfinished => YearRun(page, batches, YearUnfinished)
          case PagesDone(last, found) => RowsFrom(i + 1, rowCount, last, read, hit, budget, batches + found)
  }

  /** parseFromYear: the page counter starts at 1, once for the whole year. */
  function YearWalk(rowCount: nat, read: (nat, nat) -> RowRead, hit: (string, int, string) -> bool, budget: nat): YearRun {
    RowsFrom(0, rowCount, 1, read, hit, budget, [])
  }

  /** The batches are in page order and none is below the starting page. */
  predicate PagesFrom(batches: seq<Batch>, page: int) {
    (forall k :: 0 <= k < |batches| ==> page <= batches[k].page) &&
    (forall k, l :: 0 <= k < l < |batches| ==> batches[k].page <= batches[l].page)
  }

  lemma {:induction false} DateBatchesFrom(date: string, page: int, hit: (string, int, string) -> bool, budget: nat)
    requires DatePages(date, page, hit, budget).PagesDone?
    ensures var r := DatePages(date, page, hit, budget);
            PagesFrom(r.batches, page) && page <= r.page &&
            (forall k :: 0 <= k < |r.batches| ==> r.batches[k].page < r.page && r.batches[k].date == date)
    decreases budget
  {
    var found := PageBatches(date, page, hit, 0);
    if found != [] {
      DateBatchesFrom(date, page + 1, hit, budget - 1);
    }
  }

  /**
   * The page counter is never reset between dates: it only grows, every
   * saved batch is on a page at or after the one the walk started from, and
   * the batches come in page order across all dates.
   */
  lemma {:induction false} PageCounterNeverResets(i: nat, rowCount: nat, page: int, read: (nat, nat) -> RowRead,
                                                  hit: (string, int, string) -> bool, budget: nat, batches: seq<Batch>)
    requires PagesFrom(batches, 1) && forall k :: 0 <= k < |batches| ==> batches[k].page <= page
    requires 1 <= page
    ensures var r := RowsFrom(i, rowCount, page, read, hit, budget, batches);
            page <= r.page && PagesFrom(r.batches, 1) && |batches| <= |r.batches| && r.batches[..|batches|] == batches
    decreases rowCount - i
  {
    if i < rowCount {
      var rr := RowReading(i, 0, read);
      if rr.None? {
        PageCounterNeverResets(i + 1, rowCount, page, read, hit, budget, batches);
      } else if !rr.value.RowFailed? && |rr.value.text| >= 11 {
        var date := rr.value.text[1..11];
        var d := DatePages(date, page, hit, budget);
        if d.PagesDone? {
          DateBatchesFrom(date, page, hit, budget);
          var grown := batches + d.batches;
          assert PagesFrom(grown, 1);
          PageCounterNeverResets(i + 1, rowCount, d.page, read, hit, budget, grown);
          var r := RowsFrom(i + 1, rowCount, d.page, read, hit, budget, grown);
          assert r.batches[..|batches|] == r.batches[..|grown|][..|batches|];
        } else {
          assert batches[..|batches|] == batches;
        }
      } else {
        assert batches[..|batches|] == batches;
      }
    } else {
      assert batches[..|batches|] == batches;
    }
  }

  /** A row that is stale on all three attempts is skipped, and the page counter stays where it was. */
  lemma ThreeStaleReadsSkipRow(i: nat, rowCount: nat, page: int, read: (nat, nat) -> RowRead,
                               hit: (string, int, string) -> bool, budget: nat, batches: seq<Batch>)
    requires i < rowCount && read(i, 0).RowStale? && read(i, 1).RowStale? && read(i, 2).RowStale?
    ensures RowsFrom(i, rowCount, page, read, hit, budget, batches) == RowsFrom(i + 1, rowCount, page, read, hit, budget, batches)
  {
    assert RowReading(i, 2, read) == None;
    assert RowReading(i, 0, read) == None;
  }

  // ---------------------------------------------------------------------------
  // The loops
  // ---------------------------------------------------------------------------

  /** The category loop of one page. */
  method HarvestPage(date: string, page: int, hit: (string, int, string) -> bool) returns (found: seq<Batch>)
    ensures found == PageBatches(date, page, hit, 0)
  {
    found := [];
    var j := |Categories|;
    // the batches of categories j.. are known; walk backwards to keep the order without reversing
    while j > 0
      invariant 0 <= j <= |Categories|
      invariant found == PageBatches(date, page, hit, j)
    {
      j := j - 1;
      if hit(date, page, Categories[j].1) {
        found := [Batch(date, page, Categories[j].0)] + found;
      }
    }
  }

  /** The batches of the pages already read, put in front of what the rest of the loop finds. */
  function AfterBatches(batches: seq<Batch>, rest: PagesEnd): PagesEnd {
    match rest
    case PagesUnfinished => PagesUnfinished
    case PagesDone(last, found) => PagesDone(last, batches + found)
  }

  /** A page with data moves its batches in front and the loop on to the next page. */
  lemma NextDatePage(date: string, page: int, hit: (string, int, string) -> bool, budget: nat, batches: seq<Batch>)
    requires budget > 0 && PageBatches(date, page, hit, 0) != []
    ensures AfterBatches(batches, DatePages(date, page, hit, budget)) ==
            AfterBatches(batches + PageBatches(date, page, hit, 0), DatePages(date, page + 1, hit, budget - 1))
  {
    var found := PageBatches(date, page, hit, 0);
    match DatePages(date, page + 1, hit, budget - 1)
    case PagesUnfinished =>
    case PagesDone(last, rest) =>
      assert batches + (found + rest) == batches + found + rest;
  }

  /** The page loop of one date, with at most `budget` pages. */
  method HarvestDate(date: string, page: int, hit: (string, int, string) -> bool, budget: nat) returns (r: PagesEnd)
    ensures r == DatePages(date, page, hit, budget)
  {
    var current := page;
    var batches: seq<Batch> := [];
    var left: nat := budget;
    assert DatePages(date, page, hit, budget) == AfterBatches([], DatePages(date, current, hit, left));
    while true
      invariant left <= budget
      invariant DatePages(date, page, hit, budget) == AfterBatches(batches, DatePages(date, current, hit, left))
      decreases left
    {
      if left == 0 {
        return PagesUnfinished;
      }
      var foundThisPage := HarvestPage(date, current, hit);
      if foundThisPage == [] {
        return PagesDone(current, batches);
      }
      NextDatePage(date, current, hit, left, batches);
      batches := batches + foundThisPage;
      current := current + 1;
      left := left - 1;
    }
  }

  /** The stale-element retry of one row. */
  method ReadRow(i: nat, read: (nat, nat) -> RowRead) returns (r: Option<RowRead>)
    ensures r == RowReading(i, 0, read)
  {
    var retryCount := 0;
    while retryCount < RowAttempts
      invariant 0 <= retryCount <= RowAttempts
      invariant RowReading(i, 0, read) == RowReading(i, retryCount, read)
    {
      var attempt := read(i, retryCount);
      if !attempt.RowStale? {
        return Some(attempt);
      }
      retryCount := retryCount + 1;
    }
    r := None;
  }

  /** parseFromYear over `rowCount` date rows. */
  method ParseFromYear(rowCount: nat, read: (nat, nat) -> RowRead, hit: (string, int, string) -> bool, budget: nat)
    returns (r: YearRun)
    ensures r == YearWalk(rowCount, read, hit, budget)
  {
    var page := 1;
    var batches: seq<Batch> := [];
    for i := 0 to rowCount
      invariant YearWalk(rowCount, read, hit, budget) == RowsFrom(i, rowCount, page, read, hit, budget, batches)
    {
      var row := ReadRow(i, read);
      if row.None? {
        continue;
      }
      if row.value.RowFailed? || |row.value.text| < 11 {
        return YearRun(page, batches, YearFailed);
      }
      var date := row.value.text[1..11];
      var pages := HarvestDate(date, page, hit, budget);
      if pages.PagesUnfinished? {
        return YearRun(page, batches, YearUnfinished);
      }
      batches := batches + pages.batches;
      page := pages.page;
    }
    r := YearRun(page, batches, YearDone);
  }
}
