/**
 * PatentService: the duplicate check every harvester runs before saving,
 * the category-name lookup, the image-URL lookup, additional-field writes
 * and the CSV export of a list of patents.
 *
 * The patent table is a sequence of records whose id is their position plus
 * one; the additional-field table is a sequence of (owner id, attribute) rows.
 */
module PatentService {
  import opened Wrappers
  import opened JavaText
  import opened LocalDates
  import opened PatentModel
  import PatentCategory

  /** The exceptions these operations can end in. */
  datatype Error =
    | IllegalArgument(categoryId: int)  // getPatentsByCategory with an unknown id
    | EntityNotFound(patentId: int)     // saveAdditionalField with an unknown id
    | NullPointer                       // getImageUrl on a record without a field list
    | NonUniqueResult                   // an Optional finder that matched several rows

  // ---------------------------------------------------------------------------
  // Duplicate check
  // ---------------------------------------------------------------------------

  /** The derived finders' keys: a number, the category and the site (a null parameter matches null). */
  datatype NaturalKey =
    | BySecurityDoc(number: string, category: Option<string>, site: Option<string>)
    | ByRegistration(number: string, category: Option<string>, site: Option<string>)

  predicate Matches(row: Record, key: NaturalKey) {
    match key
    case BySecurityDoc(n, c, s) => row.securityDocNumber == Some(n) && row.category == c && row.patentSite == s
    case ByRegistration(n, c, s) => row.registrationNumber == Some(n) && row.category == c && row.patentSite == s
  }

  /** How many rows of the table a finder's query selects. */
  function CountMatches(rows: seq<Record>, key: NaturalKey): (n: nat)
    ensures n == 0 <==> forall i :: 0 <= i < |rows| ==> !Matches(rows[i], key)
    ensures n <= |rows|
  {
    if rows == [] then 0
    else CountMatches(rows[..|rows| - 1], key) + (if Matches(rows[|rows| - 1], key) then 1 else 0)
  }

  /**
   * A derived finder returning Optional, followed by isPresent(): no row is
   * false, one row is true, several rows make the finder throw.
   */
  function FindPresent(rows: seq<Record>, key: NaturalKey): (r: Result<bool, Error>)
    ensures r == Success(false) <==> forall i :: 0 <= i < |rows| ==> !Matches(rows[i], key)
    ensures r == Success(true) ==> exists i :: 0 <= i < |rows| && Matches(rows[i], key)
    ensures r.Failure? ==> r.error == NonUniqueResult && CountMatches(rows, key) >= 2
  {
    var n := CountMatches(rows, key);
    if n == 0 then Success(false)
    else if n == 1 then Success(true)
    else Failure(NonUniqueResult)
  }

  /**
   * The key isPatentExists looks a record up by: the security document number
   * when it is set, otherwise the registration number, and none when both are null.
   */
  function LookupKey(patent: Record): (k: Option<NaturalKey>)
    ensures k.None? <==> patent.securityDocNumber.None? && patent.registrationNumber.None?
    ensures patent.securityDocNumber.Some? ==>
              k == Some(BySecurityDoc(patent.securityDocNumber.value, patent.category, patent.patentSite))
    ensures patent.securityDocNumber.None? && patent.registrationNumber.Some? ==>
              k == Some(ByRegistration(patent.registrationNumber.value, patent.category, patent.patentSite))
  {
    if patent.securityDocNumber.None? && patent.registrationNumber.None? then None
    else if patent.securityDocNumber.Some? then
      Some(BySecurityDoc(patent.securityDocNumber.value, patent.category, patent.patentSite))
    else
      Some(ByRegistration(patent.registrationNumber.value, patent.category, patent.patentSite))
  }

  /** isPatentExists: whether the table already holds this record, judged by its lookup key. */
  function IsPatentExists(patent: Option<Record>, rows: seq<Record>): (r: Result<bool, Error>)
    ensures patent.None? ==> r == Success(false)
    ensures patent.Some? && LookupKey(patent.value).None? ==> r == Success(false)
    ensures r == Success(true) <==>
              patent.Some? && LookupKey(patent.value).Some? && CountMatches(rows, LookupKey(patent.value).value) == 1
    ensures r.Failure? <==>
              patent.Some? && LookupKey(patent.value).Some? && CountMatches(rows, LookupKey(patent.value).value) >= 2
  {
    if patent.None? then Success(false)
    else
      match LookupKey(patent.value)
      case None => Success(false)
      case Some(key) => FindPresent(rows, key)
  }

  /** A record without either number is never a duplicate, whatever the table holds. */
  lemma NoNumberIsNeverDuplicate(patent: Record, rows: seq<Record>)
    requires patent.securityDocNumber.None? && patent.registrationNumber.None?
    ensures IsPatentExists(Some(patent), rows) == Success(false)
  {
  }

  /** With a security document number set, the registration number plays no part. */
  lemma RegistrationIgnoredWithSecurityDoc(patent: Record, other: Option<string>, rows: seq<Record>)
    requires patent.securityDocNumber.Some?
    ensures IsPatentExists(Some(patent), rows) == IsPatentExists(Some(patent.(registrationNumber := other)), rows)
  {
  }

  /** Appending one row adds one to the count exactly when that row matches. */
  lemma {:induction false} CountAppend(rows: seq<Record>, row: Record, key: NaturalKey)
    ensures CountMatches(rows + [row], key) == CountMatches(rows, key) + (if Matches(row, key) then 1 else 0)
  {
    assert (rows + [row])[..|rows|] == rows;
  }

  /**
   * Once a record with a number has been saved into a table that held no
   * match for it, the check recognises it as a duplicate.
   */
  lemma SavedRecordIsDuplicate(patent: Record, rows: seq<Record>)
    requires LookupKey(patent).Some?
    requires IsPatentExists(Some(patent), rows) == Success(false)
    ensures IsPatentExists(Some(patent), rows + [patent]) == Success(true)
  {
    var key := LookupKey(patent).value;
    CountAppend(rows, patent, key);
  }

  /** A row from another site never makes a record a duplicate. */
  lemma OtherSiteNeverMatches(patent: Record, row: Record, rows: seq<Record>)
    requires LookupKey(patent).Some? && row.patentSite != patent.patentSite
    ensures IsPatentExists(Some(patent), rows + [row]) == IsPatentExists(Some(patent), rows)
  {
    CountAppend(rows, row, LookupKey(patent).value);
  }

  // ---------------------------------------------------------------------------
  // Category name and image URL
  // ---------------------------------------------------------------------------

  /** getPatentsByCategory: the display name of the category with this id. */
  function GetPatentsByCategory(categoryId: int): (r: Result<string, Error>)
    ensures r.Success? <==> 1 <= categoryId <= 5
    ensures r.Failure? ==> r.error == IllegalArgument(categoryId)
    ensures forall c: PatentCategory.Category :: c.Id() == categoryId ==> r == Success(c.Name())
  {
    match PatentCategory.FromId(categoryId)
    case None => Failure(IllegalArgument(categoryId))
    case Some(c) => Success(c.Name())
  }

  /** The value of the first attribute with this label. */
  function FirstValue(attributes: seq<Attribute>, fieldLabel: string): (r: Option<string>)
    ensures r.None? <==> forall i :: 0 <= i < |attributes| ==> attributes[i].fieldLabel != fieldLabel
    ensures r.Some? ==> exists i :: 0 <= i < |attributes| && attributes[i] == Attribute(fieldLabel, r.value) &&
                                    forall j :: 0 <= j < i ==> attributes[j].fieldLabel != fieldLabel
  {
    if attributes == [] then None
    else if attributes[0].fieldLabel == fieldLabel then Some(attributes[0].value)
    else
      var rest := FirstValue(attributes[1..], fieldLabel);
      assert forall i :: 1 <= i < |attributes| ==> attributes[i] == attributes[1..][i - 1];
      rest
  }

  const ImageLabel: string := "Изображение"

  /** getImageUrl: the first "Изображение" value; a record without a field list throws. */
  function GetImageUrl(patent: Record): (r: Result<Option<string>, Error>)
    ensures r.Failure? <==> patent.additionalFields.None?
    ensures r.Failure? ==> r.error == NullPointer
    ensures r.Success? && r.value.Some? ==>
              exists i :: 0 <= i < |patent.additionalFields.value| &&
                          patent.additionalFields.value[i] == Attribute(ImageLabel, r.value.value)
    ensures r == Success(None) <==>
              patent.additionalFields.Some? &&
              forall i :: 0 <= i < |patent.additionalFields.value| ==> patent.additionalFields.value[i].fieldLabel != ImageLabel
  {
    match patent.additionalFields
    case None => Failure(NullPointer)
    case Some(attributes) => Success(FirstValue(attributes, ImageLabel))
  }

  // ---------------------------------------------------------------------------
  // Repository writes
  // ---------------------------------------------------------------------------

  /** A row of the additional-field table: the owning patent's id and the label/value pair. */
  datatype OwnedField = OwnedField(patentId: int, attribute: Attribute)

  class PatentRepository {
    /** The patent table; the record at position i has id i + 1. */
    var rows: seq<Record>
    /** The additional-field table. */
    var fields: seq<OwnedField>

    /** Every additional field is owned by a patent that exists. */
    predicate Valid()
      reads this
    {
      forall k :: 0 <= k < |fields| ==> 1 <= fields[k].patentId <= |rows|
    }

    constructor()
      ensures rows == [] && fields == [] && Valid()
    {
      rows := [];
      fields := [];
    }

    /** savePatent: the record is stored and gets the next id. */
    method SavePatent(patent: Record) returns (id: int)
      requires Valid()
      modifies this`rows
      ensures Valid()
      ensures rows == old(rows) + [patent] && id == |rows|
    {
      rows := rows + [patent];
      id := |rows|;
    }

    /** savePatents: the records are stored in list order. */
    method SavePatents(patents: seq<Record>)
      requires Valid()
      modifies this`rows
      ensures Valid()
      ensures rows == old(rows) + patents
    {
      rows := rows + patents;
    }

    /**
     * saveAdditionalField: exactly one field owned by the patent is stored when
     * the id exists; otherwise EntityNotFoundException and nothing changes.
     */
    method SaveAdditionalField(patentId: int, fieldLabel: string, value: string) returns (r: Result<(), Error>)
      requires Valid()
      modifies this`fields
      ensures Valid()
      ensures r.Success? <==> 1 <= patentId <= |rows|
      ensures r.Success? ==> fields == old(fields) + [OwnedField(patentId, Attribute(fieldLabel, value))]
      ensures r.Failure? ==> r.error == EntityNotFound(patentId) && fields == old(fields)
    {
      if 1 <= patentId <= |rows| {
        fields := fields + [OwnedField(patentId, Attribute(fieldLabel, value))];
        r := Success(());
      } else {
        r := Failure(EntityNotFound(patentId));
      }
    }
  }

  // ---------------------------------------------------------------------------
  // CSV export
  // ---------------------------------------------------------------------------

  /** The byte-order mark written first so that spreadsheet programs read UTF-8. */
  const Bom: char := '\U{FEFF}'

  /** The 19 standard columns, in output order. */
  const StandardHeaders: seq<string> := [
    "№ Документа", "№ Регистрации", "Статус", "№ Заявки", "Дата подачи",
    "Дата регистрации", "Дата окончания", "Дата бюллетеня", "Название",
    "Имя", "№ Бюллетеня", "IPC", "МКПО", "Название сорта",
    "Патентообладатель", "Авторы", "Владелец", "Категория", "Сайт патента"]

  /** optionalValue: null becomes the empty cell. */
  function OptionalValue(value: Option<string>): (cell: string)
    ensures value.Some? ==> cell == value.value
    ensures value.None? ==> cell == ""
  {
    value.GetOr("")
  }

  /** optionalDate: a date in ISO form, null as the empty cell. */
  function OptionalDate(date: Option<Date>): (cell: string)
    ensures date.None? ==> cell == ""
    ensures date.Some? && IsValidDate(date.value) && 1 <= date.value.year <= 9999 ==>
              cell == PadDigits(date.value.year, 4) + "-" + PadDigits(date.value.month, 2) + "-" + PadDigits(date.value.day, 2) &&
              |cell| == 10
  {
    match date
    case None => ""
    case Some(d) =>
      if IsValidDate(d) && 1 <= d.year <= 9999 then IsoStringShape(d); IsoString(d) else IsoString(d)
  }

  /** The standard cells of one record, in the order of StandardHeaders. */
  function StandardCells(p: Record): (cells: seq<string>)
    ensures |cells| == |StandardHeaders|
  {
    [OptionalValue(p.securityDocNumber), OptionalValue(p.registrationNumber), OptionalValue(p.status),
     OptionalValue(p.applicationNumber), OptionalDate(p.filingDate), OptionalDate(p.registrationDate),
     OptionalDate(p.expirationDate), OptionalDate(p.bulletinDate), OptionalValue(p.title),
     OptionalValue(p.name), OptionalValue(p.bulletinNumber), OptionalValue(p.ipc), OptionalValue(p.mkpo),
     OptionalValue(p.sortName), OptionalValue(p.patentHolder), OptionalValue(p.authors),
     OptionalValue(p.owner), OptionalValue(p.category), OptionalValue(p.patentSite)]
  }

  /** The labels of a list of attributes. */
  function AttributeLabels(attributes: seq<Attribute>): (labels: set<string>)
    ensures forall l :: l in labels <==> exists j :: 0 <= j < |attributes| && attributes[j].fieldLabel == l
  {
    if attributes == [] then {}
    else
      var front := attributes[..|attributes| - 1];
      assert forall j :: 0 <= j < |front| ==> front[j] == attributes[j];
      AttributeLabels(front) + {attributes[|attributes| - 1].fieldLabel}
  }

  function FieldLabels(p: Record): set<string> {
    if p.additionalFields.Some? then AttributeLabels(p.additionalFields.value) else {}
  }

  /** Every label that occurs in some record's field list. */
  function LabelsOf(patents: seq<Record>): set<string> {
    if patents == [] then {} else LabelsOf(patents[..|patents| - 1]) + FieldLabels(patents[|patents| - 1])
  }

  lemma {:induction false} LabelsOfMeaning(patents: seq<Record>)
    ensures forall l :: l in LabelsOf(patents) <==> exists i :: 0 <= i < |patents| && l in FieldLabels(patents[i])
  {
    if patents != [] {
      var front, last := patents[..|patents| - 1], patents[|patents| - 1];
      LabelsOfMeaning(front);
      forall l | l in LabelsOf(patents)
        ensures exists i :: 0 <= i < |patents| && l in FieldLabels(patents[i])
      {
        if l !in FieldLabels(last) {
          assert l in LabelsOf(front);
          var i :| 0 <= i < |front| && l in FieldLabels(front[i]);
          assert front[i] == patents[i];
        }
      }
      forall l, i | 0 <= i < |patents| && l in FieldLabels(patents[i])
        ensures l in LabelsOf(patents)
      {
        if i < |front| {
          assert front[i] == patents[i];
          assert l in LabelsOf(front);
        }
      }
    }
  }

  /** Strictly ascending under String.compareTo. */
  predicate StrictlySorted(s: seq<string>) {
    forall i, j :: 0 <= i < j < |s| ==> Less(s[i], s[j])
  }

  /** `s` lists exactly the strings of `labels`, in ascending order. */
  ghost predicate SortedListing(s: seq<string>, labels: set<string>) {
    StrictlySorted(s) && forall x :: x in labels <==> x in s
  }

  /** Every non-empty set of strings has a least element. */
  lemma {:induction false} LeastExists(labels: set<string>) returns (m: string)
    requires labels != {}
    ensures m in labels && forall y :: y in labels && y != m ==> Less(m, y)
    decreases |labels|
  {
    var x :| x in labels;
    var rest := labels - {x};
    if rest == {} {
      m := x;
      assert labels == {x};
    } else {
      var least := LeastExists(rest);
      LessTotal(x, least);
      if Less(x, least) {
        m := x;
        forall y | y in labels && y != m ensures Less(m, y) {
          if y != least {
            LessTransitive(x, least, y);
          }
        }
      } else {
        m := least;
        forall y | y in labels && y != m ensures Less(m, y) {
          if y == x {
            assert x !in rest;
          }
        }
      }
    }
  }

  /** Every finite set of strings has an ascending listing. */
  lemma {:induction false} SortedListingExists(labels: set<string>)
    ensures exists s :: SortedListing(s, labels)
    decreases |labels|
  {
    if labels == {} {
      assert SortedListing([], labels);
    } else {
      var m := LeastExists(labels);
      SortedListingExists(labels - {m});
      var rest :| SortedListing(rest, labels - {m});
      var s := [m] + rest;
      forall i, j | 0 <= i < j < |s| ensures Less(s[i], s[j]) {
        if i == 0 {
          assert s[j] in rest;
        }
      }
      assert SortedListing(s, labels);
    }
  }

  /** The ascending listing of a set is unique. */
  lemma {:induction false} SortedListingUnique(a: seq<string>, b: seq<string>, labels: set<string>)
    requires SortedListing(a, labels) && SortedListing(b, labels)
    ensures a == b
    decreases |a|
  {
    if a != [] {
      assert a[0] in b;
    }
    if b != [] {
      assert b[0] in a;
    }
    if a != [] && b != [] {
      if a[0] != b[0] {
        LessTotal(a[0], b[0]);
      }
      var rest := labels - {a[0]};
      forall x ensures x in rest <==> x in a[1..] {
        if x in a[1..] {
          LessIrreflexive(a[0]);
        }
      }
      forall x ensures x in rest <==> x in b[1..] {
        if x in b[1..] {
          LessIrreflexive(b[0]);
        }
      }
      SortedListingUnique(a[1..], b[1..], rest);
      assert a == [a[0]] + a[1..] && b == [b[0]] + b[1..];
    }
  }

  /** The sorted list of extension headers, as Collections.sort leaves the labels. */
  ghost function SortedLabels(labels: set<string>): (s: seq<string>)
    ensures SortedListing(s, labels)
  {
    SortedListingExists(labels);
    var s :| SortedListing(s, labels);
    s
  }

  /** The value of the last attribute with this label: HashMap.put keeps the last one. */
  function LastValue(attributes: seq<Attribute>, fieldLabel: string): Option<string> {
    if attributes == [] then None
    else if attributes[|attributes| - 1].fieldLabel == fieldLabel then Some(attributes[|attributes| - 1].value)
    else LastValue(attributes[..|attributes| - 1], fieldLabel)
  }

  lemma LastValueMeaning(attributes: seq<Attribute>, fieldLabel: string)
    ensures LastValue(attributes, fieldLabel).None? <==>
            forall i :: 0 <= i < |attributes| ==> attributes[i].fieldLabel != fieldLabel
    ensures LastValue(attributes, fieldLabel).Some? ==>
            exists i :: 0 <= i < |attributes| && attributes[i] == Attribute(fieldLabel, LastValue(attributes, fieldLabel).value) &&
                        forall j :: i < j < |attributes| ==> attributes[j].fieldLabel != fieldLabel
  {
    LastValueAbsent(attributes, fieldLabel);
    if LastValue(attributes, fieldLabel).Some? {
      var i := LastValueAt(attributes, fieldLabel);
    }
  }

  /** No value exactly when no attribute carries the label. */
  lemma {:induction false} LastValueAbsent(attributes: seq<Attribute>, fieldLabel: string)
    ensures LastValue(attributes, fieldLabel).None? <==>
            forall i :: 0 <= i < |attributes| ==> attributes[i].fieldLabel != fieldLabel
  {
    if attributes != [] && attributes[|attributes| - 1].fieldLabel != fieldLabel {
      var front := attributes[..|attributes| - 1];
      LastValueAbsent(front, fieldLabel);
      assert forall i :: 0 <= i < |front| ==> front[i] == attributes[i];
    }
  }

  /** A value comes from the last attribute carrying the label; its index is returned. */
  lemma {:induction false} LastValueAt(attributes: seq<Attribute>, fieldLabel: string) returns (i: int)
    requires LastValue(attributes, fieldLabel).Some?
    ensures 0 <= i < |attributes| && attributes[i] == Attribute(fieldLabel, LastValue(attributes, fieldLabel).value)
    ensures forall j :: i < j < |attributes| ==> attributes[j].fieldLabel != fieldLabel
  {
    var n := |attributes| - 1;
    if attributes[n].fieldLabel == fieldLabel {
      i := n;
    } else {
      var front := attributes[..n];
      i := LastValueAt(front, fieldLabel);
      assert attributes[i] == front[i];
    }
  }

  /** The cell of one extension column. */
  function ExtensionCell(p: Record, header: string): string {
    if p.additionalFields.Some? then OptionalValue(LastValue(p.additionalFields.value, header)) else ""
  }

  /** The cells of one record's row: the standard ones, then one per extension header. */
  function RowCells(p: Record, headers: seq<string>): seq<string> {
    StandardCells(p) + seq(|headers|, k requires 0 <= k < |headers| => ExtensionCell(p, headers[k]))
  }

  function HeaderLine(headers: seq<string>): string {
    Join(StandardHeaders + headers, ";")
  }

  /** The data lines, each followed by the line separator. */
  function DataLines(patents: seq<Record>, headers: seq<string>, newline: string): string {
    if patents == [] then []
    else DataLines(patents[..|patents| - 1], headers, newline) + Join(RowCells(patents[|patents| - 1], headers), ";") + newline
  }

  /** The whole file: BOM, header line, one line per record. */
  ghost function CsvDocument(patents: seq<Record>, newline: string): string {
    var headers := SortedLabels(LabelsOf(patents));
    [Bom] + HeaderLine(headers) + newline + DataLines(patents, headers, newline)
  }

  lemma CsvDocumentParts(patents: seq<Record>, newline: string, headers: seq<string>)
    requires headers == SortedLabels(LabelsOf(patents))
    ensures CsvDocument(patents, newline) == [Bom] + HeaderLine(headers) + newline + DataLines(patents, headers, newline)
  {
  }

  lemma DataLinesStep(patents: seq<Record>, i: nat, headers: seq<string>, newline: string)
    requires i < |patents|
    ensures DataLines(patents[..i + 1], headers, newline) ==
            DataLines(patents[..i], headers, newline) + Join(RowCells(patents[i], headers), ";") + newline
  {
    assert patents[..i + 1][..i] == patents[..i];
  }

  /** Sorts the collected labels, by repeatedly taking the least remaining one. */
  method SortLabels(labels: set<string>) returns (sorted: seq<string>)
    ensures SortedListing(sorted, labels)
  {
    sorted := [];
    var remaining := labels;
    while remaining != {}
      invariant remaining <= labels
      invariant StrictlySorted(sorted)
      invariant forall x :: x in labels <==> x in sorted || x in remaining
      invariant forall x, y :: x in sorted && y in remaining ==> Less(x, y)
      decreases |remaining|
    {
      var least := LeastOf(remaining);
      sorted := sorted + [least];
      remaining := remaining - {least};
    }
  }

  /** The least string of a non-empty set. */
  method LeastOf(labels: set<string>) returns (least: string)
    requires labels != {}
    ensures least in labels && forall y :: y in labels && y != least ==> Less(least, y)
  {
    least :| least in labels;
    var todo := labels - {least};
    while todo != {}
      invariant todo <= labels && least in labels && least !in todo
      invariant forall y :: y in labels && y !in todo && y != least ==> Less(least, y)
      decreases |todo|
    {
      var y :| y in todo;
      LessTotal(y, least);
      if Less(y, least) {
        forall z | z in labels && z !in todo && z != y ensures Less(y, z) {
          if z != least {
            LessTransitive(y, least, z);
          }
        }
        least := y;
      }
      todo := todo - {y};
    }
  }

  /** The label-to-value map a row is built from, read as an Option. */
  function MapGet(m: map<string, string>, key: string): Option<string> {
    if key in m then Some(m[key]) else None
  }

  /** The first loop of exportToCsv: the distinct labels over all field lists. */
  method CollectLabels(patents: seq<Record>) returns (labels: set<string>)
    ensures labels == LabelsOf(patents)
  {
    labels := {};
    for i := 0 to |patents|
      invariant labels == LabelsOf(patents[..i])
    {
      var p := patents[i];
      assert patents[..i + 1][..i] == patents[..i];
      if p.additionalFields.Some? {
        var attributes := p.additionalFields.value;
        var before := labels;
        for j := 0 to |attributes|
          invariant labels == before + AttributeLabels(attributes[..j])
        {
          assert attributes[..j + 1][..j] == attributes[..j];
          labels := labels + {attributes[j].fieldLabel};
        }
        assert attributes[..|attributes|] == attributes;
      }
    }
    assert patents[..|patents|] == patents;
  }

  /** The header line: the standard columns joined, then ";" and each extension header. */
  method WriteHeader(columns: seq<string>, headers: seq<string>) returns (line: string)
    requires |columns| >= 1
    ensures line == Join(columns + headers, ";")
  {
    line := Join(columns, ";");
    assert columns + headers[..0] == columns;
    for k := 0 to |headers|
      invariant line == Join(columns + headers[..k], ";")
    {
      JoinSnoc(columns + headers[..k], headers[k], ";");
      assert columns + headers[..k + 1] == columns + headers[..k] + [headers[k]];
      line := line + ";" + headers[k];
    }
    assert headers[..|headers|] == headers;
  }

  /** The per-record HashMap: each field put in list order, so a later label overwrites an earlier one. */
  method FieldMap(attributes: seq<Attribute>) returns (byLabel: map<string, string>)
    ensures forall l :: MapGet(byLabel, l) == LastValue(attributes, l)
  {
    byLabel := map[];
    for j := 0 to |attributes|
      invariant forall l :: MapGet(byLabel, l) == LastValue(attributes[..j], l)
    {
      assert attributes[..j + 1][..j] == attributes[..j];
      byLabel := byLabel[attributes[j].fieldLabel := attributes[j].value];
    }
    assert attributes[..|attributes|] == attributes;
  }

  /** One record's rowData list: the standard cells, then one cell per extension header. */
  method BuildRow(p: Record, headers: seq<string>) returns (rowData: seq<string>)
    ensures rowData == RowCells(p, headers)
  {
    rowData := StandardCells(p);
    var byLabel: map<string, string> := map[];
    if p.additionalFields.Some? {
      byLabel := FieldMap(p.additionalFields.value);
    }
    for k := 0 to |headers|
      invariant rowData == RowCells(p, headers[..k])
    {
      rowData := rowData + [OptionalValue(MapGet(byLabel, headers[k]))];
    }
    assert headers[..|headers|] == headers;
  }

  /** The extension headers: the distinct labels, collected and sorted. */
  method ExtensionHeaders(patents: seq<Record>) returns (headers: seq<string>)
    ensures headers == SortedLabels(LabelsOf(patents))
  {
    var labels := CollectLabels(patents);
    headers := SortLabels(labels);
    SortedListingUnique(headers, SortedLabels(LabelsOf(patents)), LabelsOf(patents));
  }

  /** The second loop of exportToCsv: one line per record, each ended by the line separator. */
  method WriteRows(patents: seq<Record>, headers: seq<string>, newline: string) returns (text: string)
    ensures text == DataLines(patents, headers, newline)
  {
    text := [];
    for i := 0 to |patents|
      invariant text == DataLines(patents[..i], headers, newline)
    {
      var rowData := BuildRow(patents[i], headers);
      DataLinesStep(patents, i, headers, newline);
      text := text + Join(rowData, ";") + newline;
    }
    assert patents[..|patents|] == patents;
  }

  /**
   * exportToCsv: the text written to the response. The line separator of
   * println is a parameter, since it is the platform's.
   */
  method ExportToCsv(patents: seq<Record>, newline: string) returns (csv: string)
    ensures csv == CsvDocument(patents, newline)
  {
    var headers := ExtensionHeaders(patents);
    var header := WriteHeader(StandardHeaders, headers);
    var rows := WriteRows(patents, headers, newline);
    csv := [Bom] + header + newline + rows;
    CsvDocumentParts(patents, newline, headers);
  }

  /** Every row has one cell per standard column and one per extension header. */
  lemma RowWidth(p: Record, headers: seq<string>)
    ensures |RowCells(p, headers)| == |StandardHeaders| + |headers|
  {
  }

  /** An extension cell holds the value of the last field with that label, or nothing. */
  lemma ExtensionCellMeaning(p: Record, header: string)
    ensures ExtensionCell(p, header) == "" <== p.additionalFields.None?
    ensures p.additionalFields.Some? ==>
              ((forall i :: 0 <= i < |p.additionalFields.value| ==> p.additionalFields.value[i].fieldLabel != header)
               ==> ExtensionCell(p, header) == "")
    ensures p.additionalFields.Some? && ExtensionCell(p, header) != "" ==>
              exists i :: 0 <= i < |p.additionalFields.value| &&
                          p.additionalFields.value[i] == Attribute(header, ExtensionCell(p, header)) &&
                          forall j :: i < j < |p.additionalFields.value| ==> p.additionalFields.value[j].fieldLabel != header
  {
    if p.additionalFields.Some? {
      LastValueMeaning(p.additionalFields.value, header);
    }
  }

  /** A row reads back into its cells at the ';' separators when no cell contains ';'. */
  lemma RowSplitsIntoCells(p: Record, headers: seq<string>)
    requires forall k :: 0 <= k < |RowCells(p, headers)| ==> ';' !in RowCells(p, headers)[k]
    ensures Pieces(Join(RowCells(p, headers), ";"), ';') == RowCells(p, headers)
  {
    PiecesOfJoin(RowCells(p, headers), ';');
  }

  /** Cells are not escaped: a value holding ';' no longer reads back as one cell. */
  lemma ValuesAreNotEscaped(p: Record, headers: seq<string>, k: int)
    requires 0 <= k < |RowCells(p, headers)| && ';' in RowCells(p, headers)[k]
    ensures Pieces(Join(RowCells(p, headers), ";"), ';') != RowCells(p, headers)
  {
  }

  /** The header line reads back as the standard columns followed by the extension labels. */
  lemma HeaderSplitsIntoColumns(headers: seq<string>)
    requires forall k :: 0 <= k < |headers| ==> ';' !in headers[k]
    ensures Pieces(HeaderLine(headers), ';') == StandardHeaders + headers
  {
    StandardHeadersHaveNoSeparator();
    ColumnsSplit(StandardHeaders, headers);
  }

  lemma StandardHeadersHaveNoSeparator()
    ensures forall k :: 0 <= k < |StandardHeaders| ==> ';' !in StandardHeaders[k]
  {
  }

  lemma ColumnsSplit(front: seq<string>, back: seq<string>)
    requires |front| >= 1
    requires forall k :: 0 <= k < |front| ==> ';' !in front[k]
    requires forall k :: 0 <= k < |back| ==> ';' !in back[k]
    ensures Pieces(Join(front + back, ";"), ';') == front + back
  {
    var all := front + back;
    forall k | 0 <= k < |all| ensures ';' !in all[k] {
      if k >= |front| {
        assert all[k] == back[k - |front|];
      }
    }
    PiecesOfJoin(all, ';');
  }
}
