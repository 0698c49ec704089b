/**
 * The bulletin API fetcher: every bulletin date of the years 2018 to 2025 is
 * fetched category by category, each fetched list is converted and saved as
 * one batch, and the converter writes a wider table of extension attributes
 * than the page-walking harvester.
 */
module EbulletinPatentFetcher {
  import opened Wrappers
  import opened PatentModel
  import opened EbulletinPatentParser
  import PatentService

  // ---------------------------------------------------------------------------
  // Converting a bulletin record
  // ---------------------------------------------------------------------------

  /** The extension labels the fetcher's converter writes, in the order it writes them. */
  const FetcherLabels: seq<string> :=
    ["code_13", "field_31", "field_32", "field_33", "description", "date_85", "field_86", "field_181",
     "field_730", "field_526", "field_591", "field_510", "referat", "image_base64"]

  /**
   * An extension attribute as the converter builds it, whose value may be
   * null: the converter guards each attribute by one field of the record but
   * may take its value from another.
   */
  datatype RawField = RawField(fieldLabel: string, value: Option<string>)

  /** An attribute under `fieldLabel` with `value`, added only when `guard` is set. */
  function Guarded(guard: Option<string>, fieldLabel: string, value: Option<string>): seq<RawField> {
    if guard.Some? then [RawField(fieldLabel, value)] else []
  }

  /**
   * The extension attributes exactly as convertToEntity builds them: the
   * "description" attribute carries field 33's value, and the attributes of
   * fields 181, 730, 526, 591 and 510/511 all carry field 86's value.
   */
  function AsWrittenFields(dto: PatentDto): seq<RawField> {
    Guarded(dto.code13, "code_13", dto.code13) + Guarded(dto.field31, "field_31", dto.field31) +
    Guarded(dto.field32, "field_32", dto.field32) + Guarded(dto.field33, "field_33", dto.field33) +
    Guarded(dto.description, "description", dto.field33) + Guarded(dto.date85, "date_85", dto.date85) +
    Guarded(dto.field86, "field_86", dto.field86) + Guarded(dto.field181, "field_181", dto.field86) +
    Guarded(dto.field730Ru, "field_730", dto.field86) + Guarded(dto.field526Ru, "field_526", dto.field86) +
    Guarded(dto.field591, "field_591", dto.field86) + Guarded(dto.field510511, "field_510", dto.field86) +
    Guarded(dto.description, "referat", dto.description) +
    Guarded(DtoValue(dto, "image_base64"), "image_base64", dto.imageBase64)
  }

  /** An attribute list seen as the converter's nullable-valued attributes. */
  function AsRaw(fields: seq<Attribute>): (raw: seq<RawField>)
    ensures |raw| == |fields|
    ensures forall k :: 0 <= k < |fields| ==> raw[k] == RawField(fields[k].fieldLabel, Some(fields[k].value))
  {
    seq(|fields|, k requires 0 <= k < |fields| => RawField(fields[k].fieldLabel, Some(fields[k].value)))
  }

  /**
   * The sample bulletin record with an abstract and a field 181 but no field
   * 33 or 86: the converter as written stores "description" and "field_181"
   * with null values, where each attribute should carry its own field.
   */
  const MixUpSample: PatentDto :=
    PatentDto(id := None, publicationDate := None, bulletinNumber := None, code13 := None, securityDocNumber := None,
              ipcCodes := None, applicationNumber := None, applicationDate := None, field31 := None, field32 := None,
              field33 := None, date85 := None, field86 := None, field181 := Some("2"), field730Ru := None,
              field526Ru := None, field591 := None, field510511 := None, authorsRu := None, ownerRu := None,
              titleRu := None, description := Some("abstract"), imageBase64 := None)

  lemma ValueMixUp()
    ensures AsWrittenFields(MixUpSample) ==
            [RawField("description", None), RawField("field_181", None), RawField("referat", Some("abstract"))]
    ensures LabelledFields(FetcherLabels, MixUpSample) ==
            [Attribute("description", "abstract"), Attribute("field_181", "2"), Attribute("referat", "abstract")]
    ensures AsWrittenFields(MixUpSample) != AsRaw(LabelledFields(FetcherLabels, MixUpSample))
  {
    var dto := MixUpSample;
    FetcherFieldsChain(dto);
    assert DtoValue(dto, "image_base64") == None;
    assert AsWrittenFields(dto) ==
           [] + [RawField("description", None)] + [RawField("field_181", None)] + [RawField("referat", Some("abstract"))];
    assert AsRaw(LabelledFields(FetcherLabels, dto))[0] == RawField("description", Some("abstract"));
  }

  /**
   * convertToEntity with each attribute carrying the field that guards it: the
   * record of `EntityOf` for the fetcher's label table.
   */
  method ConvertToEntity(dto: PatentDto, category: string) returns (patent: Option<Record>)
    ensures patent == EntityOf(dto, EbulletinSite, category, FetcherLabels)
  {
    var filingDate := ParseDate(dto.applicationDate);
    var bulletinDate := ParseDate(dto.publicationDate);
    if filingDate.None? || bulletinDate.None? {
      return None;
    }
    var additionalFields: seq<Attribute> := [];
    additionalFields := AddIfPresent(additionalFields, "code_13", dto.code13);
    additionalFields := AddIfPresent(additionalFields, "field_31", dto.field31);
    additionalFields := AddIfPresent(additionalFields, "field_32", dto.field32);
    additionalFields := AddIfPresent(additionalFields, "field_33", dto.field33);
    additionalFields := AddIfPresent(additionalFields, "description", dto.description);
    additionalFields := AddIfPresent(additionalFields, "date_85", dto.date85);
    additionalFields := AddIfPresent(additionalFields, "field_86", dto.field86);
    additionalFields := AddIfPresent(additionalFields, "field_181", dto.field181);
    additionalFields := AddIfPresent(additionalFields, "field_730", dto.field730Ru);
    additionalFields := AddIfPresent(additionalFields, "field_526", dto.field526Ru);
    additionalFields := AddIfPresent(additionalFields, "field_591", dto.field591);
    additionalFields := AddIfPresent(additionalFields, "field_510", dto.field510511);
    additionalFields := AddIfPresent(additionalFields, "referat", dto.description);
    var patentImage := dto.imageBase64;
    if patentImage.Some? && patentImage.value != [] {
      additionalFields := additionalFields + [Attribute("image_base64", patentImage.value)];
    }
    assert additionalFields == LabelledFields(FetcherLabels, dto) by {
      FetcherFieldsChain(dto);
    }
    patent := Some(Blank.(patentSite := Some(EbulletinSite), category := Some(category),
                          securityDocNumber := dto.securityDocNumber, applicationNumber := dto.applicationNumber,
                          filingDate := filingDate, bulletinNumber := dto.bulletinNumber, bulletinDate := bulletinDate,
                          ipc := dto.ipcCodes, authors := dto.authorsRu, owner := dto.ownerRu, title := dto.titleRu,
                          additionalFields := Some(additionalFields)));
  }

  /** The record field each label of the fetcher table reads. */
  lemma FetcherLabelValues(dto: PatentDto)
    ensures DtoValue(dto, "code_13") == dto.code13
    ensures DtoValue(dto, "field_31") == dto.field31
    ensures DtoValue(dto, "field_32") == dto.field32
    ensures DtoValue(dto, "field_33") == dto.field33
    ensures DtoValue(dto, "description") == dto.description
    ensures DtoValue(dto, "date_85") == dto.date85
    ensures DtoValue(dto, "field_86") == dto.field86
    ensures DtoValue(dto, "field_181") == dto.field181
    ensures DtoValue(dto, "field_730") == dto.field730Ru
    ensures DtoValue(dto, "field_526") == dto.field526Ru
    ensures DtoValue(dto, "field_591") == dto.field591
    ensures DtoValue(dto, "field_510") == dto.field510511
    ensures DtoValue(dto, "referat") == dto.description
  {
  }

  /** The first seven labels of the fetcher table, one guarded attribute after another. */
  lemma FetcherFieldsFirstHalf(dto: PatentDto)
    ensures LabelledFields(["code_13", "field_31", "field_32", "field_33", "description", "date_85", "field_86"], dto) ==
            [] + Present("code_13", dto.code13) + Present("field_31", dto.field31) +
            Present("field_32", dto.field32) + Present("field_33", dto.field33) +
            Present("description", dto.description) + Present("date_85", dto.date85) +
            Present("field_86", dto.field86)
  {
    FetcherLabelValues(dto);
    assert LabelledFields([], dto) == [];
    LabelledFieldsSnoc([], "code_13", dto);
    assert [] + ["code_13"] == ["code_13"];
    LabelledFieldsSnoc(["code_13"], "field_31", dto);
    assert ["code_13"] + ["field_31"] == ["code_13", "field_31"];
    LabelledFieldsSnoc(["code_13", "field_31"], "field_32", dto);
    assert ["code_13", "field_31"] + ["field_32"] == ["code_13", "field_31", "field_32"];
    LabelledFieldsSnoc(["code_13", "field_31", "field_32"], "field_33", dto);
    assert ["code_13", "field_31", "field_32"] + ["field_33"] == ["code_13", "field_31", "field_32", "field_33"];
    LabelledFieldsSnoc(["code_13", "field_31", "field_32", "field_33"], "description", dto);
    assert ["code_13", "field_31", "field_32", "field_33"] + ["description"] == ["code_13", "field_31", "field_32", "field_33", "description"];
    LabelledFieldsSnoc(["code_13", "field_31", "field_32", "field_33", "description"], "date_85", dto);
    assert ["code_13", "field_31", "field_32", "field_33", "description"] + ["date_85"] == ["code_13", "field_31", "field_32", "field_33", "description", "date_85"];
    LabelledFieldsSnoc(["code_13", "field_31", "field_32", "field_33", "description", "date_85"], "field_86", dto);
    assert ["code_13", "field_31", "field_32", "field_33", "description", "date_85"] + ["field_86"] == ["code_13", "field_31", "field_32", "field_33", "description", "date_85", "field_86"];
  }

  /** The fetcher label table, one guarded attribute after another. */
  lemma FetcherFieldsChain(dto: PatentDto)
    ensures LabelledFields(FetcherLabels, dto) ==
            [] + Present("code_13", dto.code13) + Present("field_31", dto.field31) +
            Present("field_32", dto.field32) + Present("field_33", dto.field33) +
            Present("description", dto.description) + Present("date_85", dto.date85) +
            Present("field_86", dto.field86) + Present("field_181", dto.field181) +
            Present("field_730", dto.field730Ru) + Present("field_526", dto.field526Ru) +
            Present("field_591", dto.field591) + Present("field_510", dto.field510511) +
            Present("referat", dto.description) + Present("image_base64", DtoValue(dto, "image_base64"))
  {
    FetcherFieldsFirstHalf(dto);
    LabelledFieldsSnoc(["code_13", "field_31", "field_32", "field_33", "description", "date_85", "field_86"], "field_181", dto);
    LabelledFieldsSnoc(["code_13", "field_31", "field_32", "field_33", "description", "date_85", "field_86", "field_181"], "field_730", dto);
    LabelledFieldsSnoc(["code_13", "field_31", "field_32", "field_33", "description", "date_85", "field_86", "field_181", "field_730"], "field_526", dto);
    LabelledFieldsSnoc(["code_13", "field_31", "field_32", "field_33", "description", "date_85", "field_86", "field_181", "field_730", "field_526"], "field_591", dto);
    LabelledFieldsSnoc(["code_13", "field_31", "field_32", "field_33", "description", "date_85", "field_86", "field_181", "field_730", "field_526", "field_591"], "field_510", dto);
    LabelledFieldsSnoc(["code_13", "field_31", "field_32", "field_33", "description", "date_85", "field_86", "field_181", "field_730", "field_526", "field_591", "field_510"], "referat", dto);
    LabelledFieldsSnoc(["code_13", "field_31", "field_32", "field_33", "description", "date_85", "field_86", "field_181", "field_730", "field_526", "field_591", "field_510", "referat"], "image_base64", dto);
    FetcherLabelValues(dto);
    FetcherLabelsInTurn();
  }

  lemma FetcherLabelsInTurn()
    ensures ["code_13", "field_31", "field_32", "field_33", "description", "date_85", "field_86"] + ["field_181"] == ["code_13", "field_31", "field_32", "field_33", "description", "date_85", "field_86", "field_181"]
    ensures ["code_13", "field_31", "field_32", "field_33", "description", "date_85", "field_86", "field_181"] + ["field_730"] == ["code_13", "field_31", "field_32", "field_33", "description", "date_85", "field_86", "field_181", "field_730"]
    ensures ["code_13", "field_31", "field_32", "field_33", "description", "date_85", "field_86", "field_181", "field_730"] + ["field_526"] == ["code_13", "field_31", "field_32", "field_33", "description", "date_85", "field_86", "field_181", "field_730", "field_526"]
    ensures ["code_13", "field_31", "field_32", "field_33", "description", "date_85", "field_86", "field_181", "field_730", "field_526"] + ["field_591"] == ["code_13", "field_31", "field_32", "field_33", "description", "date_85", "field_86", "field_181", "field_730", "field_526", "field_591"]
    ensures ["code_13", "field_31", "field_32", "field_33", "description", "date_85", "field_86", "field_181", "field_730", "field_526", "field_591"] + ["field_510"] == ["code_13", "field_31", "field_32", "field_33", "description", "date_85", "field_86", "field_181", "field_730", "field_526", "field_591", "field_510"]
    ensures ["code_13", "field_31", "field_32", "field_33", "description", "date_85", "field_86", "field_181", "field_730", "field_526", "field_591", "field_510"] + ["referat"] == ["code_13", "field_31", "field_32", "field_33", "description", "date_85", "field_86", "field_181", "field_730", "field_526", "field_591", "field_510", "referat"]
    ensures ["code_13", "field_31", "field_32", "field_33", "description", "date_85", "field_86", "field_181", "field_730", "field_526", "field_591", "field_510", "referat"] + ["image_base64"] == FetcherLabels
  {
  }

  /** The fetcher labels are pairwise distinct. */
  lemma FetcherLabelsDistinct()
    ensures DistinctLabels(FetcherLabels)
  {
    var labels := FetcherLabels;
    forall i, j | 0 <= i < j < |labels|
      ensures labels[i] != labels[j]
    {
      if |labels[i]| == |labels[j]| {
        var first, sixth, last := labels[i][0], labels[i][6], labels[i][|labels[i]| - 1];
        assert first != labels[j][0] || sixth != labels[j][6] || last != labels[j][|labels[j]| - 1];
      }
    }
  }

  /**
   * Every attribute of a converted record carries the field its label names,
   * in table order; each set field has its attribute, and a set abstract is
   * written twice, as "description" and as "referat".
   */
  lemma FetcherAttributesCarryOwnValues(dto: PatentDto, category: string)
    requires EntityOf(dto, EbulletinSite, category, FetcherLabels).Some?
    ensures var fields := EntityOf(dto, EbulletinSite, category, FetcherLabels).value.additionalFields.value;
            InLabelOrder(fields, FetcherLabels) &&
            (forall k :: 0 <= k < |fields| ==> DtoValue(dto, fields[k].fieldLabel) == Some(fields[k].value)) &&
            (dto.field181.Some? ==> Attribute("field_181", dto.field181.value) in fields) &&
            (dto.field510511.Some? ==> Attribute("field_510", dto.field510511.value) in fields) &&
            (dto.description.Some? ==>
               Attribute("description", dto.description.value) in fields && Attribute("referat", dto.description.value) in fields)
  {
    assert EntityOf(dto, EbulletinSite, category, FetcherLabels).value.additionalFields.value == LabelledFields(FetcherLabels, dto);
    FetcherFieldsInOrder(dto);
    FetcherSetFieldsPresent(dto);
  }

  lemma FetcherFieldsInOrder(dto: PatentDto)
    ensures var fields := LabelledFields(FetcherLabels, dto);
            InLabelOrder(fields, FetcherLabels) &&
            forall k :: 0 <= k < |fields| ==> DtoValue(dto, fields[k].fieldLabel) == Some(fields[k].value)
  {
    FetcherLabelsDistinct();
    LabelledFieldsSound(FetcherLabels, dto);
    LabelledFieldsOrdered(FetcherLabels, dto);
  }

  lemma FetcherSetFieldsPresent(dto: PatentDto)
    ensures var fields := LabelledFields(FetcherLabels, dto);
            (dto.field181.Some? ==> Attribute("field_181", dto.field181.value) in fields) &&
            (dto.field510511.Some? ==> Attribute("field_510", dto.field510511.value) in fields) &&
            (dto.description.Some? ==>
               Attribute("description", dto.description.value) in fields && Attribute("referat", dto.description.value) in fields)
  {
    LabelledFieldsComplete(FetcherLabels, dto);
    FetcherLabelValues(dto);
    FetcherLabelsAt();
  }

  lemma FetcherLabelsAt()
    ensures |FetcherLabels| == 14
    ensures FetcherLabels[4] == "description" && FetcherLabels[7] == "field_181"
    ensures FetcherLabels[11] == "field_510" && FetcherLabels[12] == "referat"
  {
  }

  // ---------------------------------------------------------------------------
  // Fetching every bulletin date
  // ---------------------------------------------------------------------------

  /** The years parseAll walks, in order. */
  const Years: seq<int> := [2018, 2019, 2020, 2021, 2022, 2023, 2024, 2025]

  /**
   * fetchDatesForYear(year).block(): a failure, or the year's (index, date)
   * pairs in order; a null or empty answer is an empty list, which the walk
   * skips.
   */
  datatype DateList = DatesFailed | DatesFound(dates: seq<(int, string)>)

  /** fetchPatents(path, index, date): an HTTP or other failure, or the bulletin records in order. */
  datatype DtoList = FetchFailed | Fetched(dtos: seq<PatentDto>)

  /** The list parseAll would return at this point, and the patent table. */
  datatype Harvest = Harvest(patents: seq<Record>, rows: seq<Record>)

  /**
   * The fetched records converted one by one with the category name; the
   * first record that does not convert fails the whole list.
   */
  function ConvertAll(dtos: seq<PatentDto>, category: string): Option<seq<Record>>
    decreases |dtos|
  {
    if dtos == [] then Some([])
    else
      match ConvertAll(dtos[..|dtos| - 1], category)
      case None => None
      case Some(front) =>
        match EntityOf(dtos[|dtos| - 1], EbulletinSite, category, FetcherLabels)
        case None => None
        case Some(patent) => Some(front + [patent])
  }

  /**
   * One category of one date: a failed fetch or conversion keeps the previous
   * list; otherwise the converted list replaces it and, when not empty, is
   * appended to the patent table.
   */
  function CategoryStep(c: (string, string), date: (int, string), fetch: (string, int, string) -> DtoList, h: Harvest): Harvest {
    match fetch(c.1, date.0, date.1)
    case FetchFailed => h
    case Fetched(dtos) =>
      match ConvertAll(dtos, c.0)
      case None => h
      case Some(list) => Harvest(list, if list != [] then h.rows + list else h.rows)
  }

  /** The categories of one date from the j-th on. */
  function CategoriesFrom(j: nat, date: (int, string), fetch: (string, int, string) -> DtoList, h: Harvest): Harvest
    requires j <= |Categories|
    decreases |Categories| - j
  {
    if j == |Categories| then h else CategoriesFrom(j + 1, date, fetch, CategoryStep(Categories[j], date, fetch, h))
  }

  /** The dates of one year from the d-th on. */
  function DatesFrom(dates: seq<(int, string)>, d: nat, fetch: (string, int, string) -> DtoList, h: Harvest): Harvest
    requires d <= |dates|
    decreases |dates| - d
  {
    if d == |dates| then h else DatesFrom(dates, d + 1, fetch, CategoriesFrom(0, dates[d], fetch, h))
  }

  /** The years from the y-th on; a failed date lookup ends the walk (the outer catch). */
  function YearsFrom(y: nat, fetchDates: int -> DateList, fetch: (string, int, string) -> DtoList, h: Harvest): Harvest
    requires y <= |Years|
    decreases |Years| - y
  {
    if y == |Years| then h
    else
      match fetchDates(Years[y])
      case DatesFailed => h
      case DatesFound(dates) => YearsFrom(y + 1, fetchDates, fetch, DatesFrom(dates, 0, fetch, h))
  }

  /** parseAll over a patent table: the returned list and the table afterwards. */
  function ParseAllRun(fetchDates: int -> DateList, fetch: (string, int, string) -> DtoList, rows: seq<Record>): Harvest {
    YearsFrom(0, fetchDates, fetch, Harvest([], rows))
  }

  // ---------------------------------------------------------------------------
  // What the walk promises
  // ---------------------------------------------------------------------------

  /**
   * A list converts exactly when each of its records does, and then holds
   * each record's conversion at its position.
   */
  lemma {:induction false} ConvertAllMeaning(dtos: seq<PatentDto>, category: string)
    ensures ConvertAll(dtos, category).Some? <==>
            forall k :: 0 <= k < |dtos| ==> EntityOf(dtos[k], EbulletinSite, category, FetcherLabels).Some?
    ensures ConvertAll(dtos, category).Some? ==>
            var list := ConvertAll(dtos, category).value;
            |list| == |dtos| && forall k :: 0 <= k < |dtos| ==> EntityOf(dtos[k], EbulletinSite, category, FetcherLabels) == Some(list[k])
    decreases |dtos|
  {
    if dtos != [] {
      var init := dtos[..|dtos| - 1];
      ConvertAllMeaning(init, category);
      assert forall k :: 0 <= k < |init| ==> init[k] == dtos[k];
    }
  }

  /** A record written by this walk: from the bulletin site, under one of its categories, without a status. */
  predicate FromBulletin(r: Record) {
    r.patentSite == Some(EbulletinSite) && r.status.None? && r.additionalFields.Some? &&
    exists j :: 0 <= j < |Categories| && r.category == Some(Categories[j].0)
  }

  /** The returned list is empty or the last rows written after position `base`. */
  predicate EndsWithPatents(h: Harvest, base: nat) {
    h.patents == [] || (base + |h.patents| <= |h.rows| && h.rows[|h.rows| - |h.patents|..] == h.patents)
  }

  /**
   * From `h0` to `h` the table only grew, by records of this walk, and a
   * returned list that was the last batch stays one.
   */
  predicate Extends(h0: Harvest, h: Harvest, base: nat) {
    |h0.rows| <= |h.rows| && h.rows[..|h0.rows|] == h0.rows &&
    (forall k :: |h0.rows| <= k < |h.rows| ==> FromBulletin(h.rows[k])) &&
    (base <= |h0.rows| && EndsWithPatents(h0, base) ==> EndsWithPatents(h, base))
  }

  lemma ExtendsTransitive(h0: Harvest, h1: Harvest, h2: Harvest, base: nat)
    requires Extends(h0, h1, base) && Extends(h1, h2, base)
    ensures Extends(h0, h2, base)
  {
    assert h2.rows[..|h0.rows|] == h2.rows[..|h1.rows|][..|h0.rows|];
    forall k | |h0.rows| <= k < |h2.rows|
      ensures FromBulletin(h2.rows[k])
    {
      if k < |h1.rows| {
        assert h2.rows[k] == h2.rows[..|h1.rows|][k];
      }
    }
  }

  lemma CategoryStepExtends(j: nat, date: (int, string), fetch: (string, int, string) -> DtoList, h: Harvest, base: nat)
    requires j < |Categories|
    ensures Extends(h, CategoryStep(Categories[j], date, fetch, h), base)
  {
    var c := Categories[j];
    if fetch(c.1, date.0, date.1).Fetched? {
      var dtos := fetch(c.1, date.0, date.1).dtos;
      if ConvertAll(dtos, c.0).Some? {
        var list := ConvertAll(dtos, c.0).value;
        ConvertedFromBulletin(dtos, j);
        BatchExtends(h, list, base);
      } else {
        assert h.rows[..|h.rows|] == h.rows;
      }
    } else {
      assert h.rows[..|h.rows|] == h.rows;
    }
  }

  /** Every record a successful conversion yields came from the bulletin site. */
  lemma ConvertedFromBulletin(dtos: seq<PatentDto>, j: nat)
    requires j < |Categories| && ConvertAll(dtos, Categories[j].0).Some?
    ensures forall k :: 0 <= k < |ConvertAll(dtos, Categories[j].0).value| ==> FromBulletin(ConvertAll(dtos, Categories[j].0).value[k])
  {
    var category := Categories[j].0;
    ConvertAllMeaning(dtos, category);
    var list := ConvertAll(dtos, category).value;
    forall k | 0 <= k < |list|
      ensures FromBulletin(list[k])
    {
      assert EntityOf(dtos[k], EbulletinSite, category, FetcherLabels) == Some(list[k]);
      assert list[k].category == Some(Categories[j].0);
    }
  }

  /** Returning a converted batch, and writing it when it is not empty, extends the harvest. */
  lemma BatchExtends(h: Harvest, list: seq<Record>, base: nat)
    requires forall k :: 0 <= k < |list| ==> FromBulletin(list[k])
    ensures Extends(h, Harvest(list, if list != [] then h.rows + list else h.rows), base)
  {
    var h1 := Harvest(list, if list != [] then h.rows + list else h.rows);
    forall k | |h.rows| <= k < |h1.rows|
      ensures FromBulletin(h1.rows[k])
    {
      assert h1.rows[k] == list[k - |h.rows|];
    }
    assert h1.rows[..|h.rows|] == h.rows;
    if list != [] {
      assert h1.rows[|h1.rows| - |list|..] == list;
    }
  }

  lemma {:induction false} CategoriesFromExtends(j: nat, date: (int, string), fetch: (string, int, string) -> DtoList,
                                                 h: Harvest, base: nat)
    requires j <= |Categories|
    ensures Extends(h, CategoriesFrom(j, date, fetch, h), base)
    decreases |Categories| - j
  {
    if j == |Categories| {
      assert h.rows[..|h.rows|] == h.rows;
    } else {
      var h1 := CategoryStep(Categories[j], date, fetch, h);
      CategoryStepExtends(j, date, fetch, h, base);
      CategoriesFromExtends(j + 1, date, fetch, h1, base);
      ExtendsTransitive(h, h1, CategoriesFrom(j + 1, date, fetch, h1), base);
    }
  }

  lemma {:induction false} DatesFromExtends(dates: seq<(int, string)>, d: nat, fetch: (string, int, string) -> DtoList,
                                            h: Harvest, base: nat)
    requires d <= |dates|
    ensures Extends(h, DatesFrom(dates, d, fetch, h), base)
    decreases |dates| - d
  {
    if d == |dates| {
      assert h.rows[..|h.rows|] == h.rows;
    } else {
      var h1 := CategoriesFrom(0, dates[d], fetch, h);
      CategoriesFromExtends(0, dates[d], fetch, h, base);
      DatesFromExtends(dates, d + 1, fetch, h1, base);
      ExtendsTransitive(h, h1, DatesFrom(dates, d + 1, fetch, h1), base);
    }
  }

  lemma {:induction false} YearsFromExtends(y: nat, fetchDates: int -> DateList, fetch: (string, int, string) -> DtoList,
                                            h: Harvest, base: nat)
    requires y <= |Years|
    ensures Extends(h, YearsFrom(y, fetchDates, fetch, h), base)
    decreases |Years| - y
  {
    if y == |Years| || fetchDates(Years[y]).DatesFailed? {
      assert h.rows[..|h.rows|] == h.rows;
    } else {
      var h1 := DatesFrom(fetchDates(Years[y]).dates, 0, fetch, h);
      DatesFromExtends(fetchDates(Years[y]).dates, 0, fetch, h, base);
      YearsFromExtends(y + 1, fetchDates, fetch, h1, base);
      ExtendsTransitive(h, h1, YearsFrom(y + 1, fetchDates, fetch, h1), base);
    }
  }

  /**
   * parseAll only appends to the patent table, only records converted from
   * the bulletin under one of its categories; and it returns the last
   * fetched list, not everything it saved: that list is empty or exactly
   * the last rows it appended.
   */
  lemma ParseAllReturnsLastBatch(fetchDates: int -> DateList, fetch: (string, int, string) -> DtoList, rows: seq<Record>)
    ensures var r := ParseAllRun(fetchDates, fetch, rows);
            |rows| <= |r.rows| && r.rows[..|rows|] == rows &&
            (forall k :: |rows| <= k < |r.rows| ==> FromBulletin(r.rows[k])) &&
            (r.patents == [] || (|rows| + |r.patents| <= |r.rows| && r.rows[|r.rows| - |r.patents|..] == r.patents))
  {
    YearsFromExtends(0, fetchDates, fetch, Harvest([], rows), |rows|);
  }

  // ---------------------------------------------------------------------------
  // The walk over a patent table
  // ---------------------------------------------------------------------------

  /** A conversion that fails on a prefix fails the whole list. */
  lemma {:induction false} ConvertAllFailsFrom(dtos: seq<PatentDto>, n: nat, category: string)
    requires n <= |dtos| && ConvertAll(dtos[..n], category).None?
    ensures ConvertAll(dtos, category).None?
    decreases |dtos| - n
  {
    if n < |dtos| {
      assert dtos[..n + 1][..n] == dtos[..n];
      ConvertAllFailsFrom(dtos, n + 1, category);
    } else {
      assert dtos[..n] == dtos;
    }
  }

  /** `.map(dto -> convertToEntity(dto, category)).collect(...)`: the first failing record ends the list. */
  method ConvertFetched(dtos: seq<PatentDto>, category: string) returns (r: Option<seq<Record>>)
    ensures r == ConvertAll(dtos, category)
  {
    var list: seq<Record> := [];
    for i := 0 to |dtos|
      invariant ConvertAll(dtos[..i], category) == Some(list)
    {
      var patent := ConvertToEntity(dtos[i], category);
      assert dtos[..i + 1][..i] == dtos[..i];
      if patent.None? {
        ConvertAllFailsFrom(dtos, i + 1, category);
        return None;
      }
      list := list + [patent.value];
    }
    assert dtos[..|dtos|] == dtos;
    r := Some(list);
  }

  /** One category of one date; savePatentData appends a non-empty list to the table. */
  method FetchCategory(c: (string, string), date: (int, string), fetch: (string, int, string) -> DtoList,
                       patents: seq<Record>, repo: PatentService.PatentRepository) returns (next: seq<Record>)
    requires repo.Valid()
    modifies repo`rows
    ensures repo.Valid()
    ensures Harvest(next, repo.rows) == CategoryStep(c, date, fetch, Harvest(patents, old(repo.rows)))
  {
    next := patents;
    var fetched := fetch(c.1, date.0, date.1);
    if fetched.Fetched? {
      var converted := ConvertFetched(fetched.dtos, c.0);
      if converted.Some? {
        next := converted.value;
        if next != [] {
          repo.SavePatents(next);
        }
      }
    }
  }

  /** The three categories of one date, in order. */
  method FetchDate(date: (int, string), fetch: (string, int, string) -> DtoList, patents: seq<Record>,
                   repo: PatentService.PatentRepository) returns (next: seq<Record>)
    requires repo.Valid()
    modifies repo`rows
    ensures repo.Valid()
    ensures Harvest(next, repo.rows) == CategoriesFrom(0, date, fetch, Harvest(patents, old(repo.rows)))
  {
    next := patents;
    for j := 0 to |Categories|
      invariant repo.Valid()
      invariant CategoriesFrom(0, date, fetch, Harvest(patents, old(repo.rows))) ==
                CategoriesFrom(j, date, fetch, Harvest(next, repo.rows))
    {
      next := FetchCategory(Categories[j], date, fetch, next, repo);
    }
  }

  /** The dates of one year, in order. */
  method FetchYear(dates: seq<(int, string)>, fetch: (string, int, string) -> DtoList, patents: seq<Record>,
                   repo: PatentService.PatentRepository) returns (next: seq<Record>)
    requires repo.Valid()
    modifies repo`rows
    ensures repo.Valid()
    ensures Harvest(next, repo.rows) == DatesFrom(dates, 0, fetch, Harvest(patents, old(repo.rows)))
  {
    next := patents;
    for d := 0 to |dates|
      invariant repo.Valid()
      invariant DatesFrom(dates, 0, fetch, Harvest(patents, old(repo.rows))) == DatesFrom(dates, d, fetch, Harvest(next, repo.rows))
    {
      next := FetchDate(dates[d], fetch, next, repo);
    }
  }

  /** parseAll: the years in order; a failed date lookup ends the walk with the list fetched last. */
  method ParseAll(fetchDates: int -> DateList, fetch: (string, int, string) -> DtoList,
                  repo: PatentService.PatentRepository) returns (patents: seq<Record>)
    requires repo.Valid()
    modifies repo`rows
    ensures repo.Valid()
    ensures Harvest(patents, repo.rows) == ParseAllRun(fetchDates, fetch, old(repo.rows))
  {
    patents := [];
    for y := 0 to |Years|
      invariant repo.Valid()
      invariant ParseAllRun(fetchDates, fetch, old(repo.rows)) == YearsFrom(y, fetchDates, fetch, Harvest(patents, repo.rows))
    {
      var dates := fetchDates(Years[y]);
      if dates.DatesFailed? {
        return;
      }
      patents := FetchYear(dates.dates, fetch, patents, repo);
    }
  }
}
