/**
 * The reactive bulletin fetcher service: its URLs, the trademark image step
 * and its converter, which writes the full API address as the record's site.
 * The stream plumbing between these steps is reduced to the one stage that
 * handles a fetched record under a bulletin-date entry.
 */
module PatentFetcherService {
  import opened Wrappers
  import opened JavaText
  import opened PatentModel
  import opened EbulletinPatentParser
  import EbulletinPatentFetcher

  const BaseUrl: string := "https://ebulletin.kazpatent.kz:6002/bulletin/published"

  /** The one category whose records get an image. */
  const TrademarkCategory: string := "Товарные знаки"

  // ---------------------------------------------------------------------------
  // Years and URLs
  // ---------------------------------------------------------------------------

  /** IntStream.rangeClosed(lo, hi): every integer from lo to hi, in order. */
  function RangeClosed(lo: int, hi: int): (r: seq<int>)
    ensures |r| == if lo <= hi then hi - lo + 1 else 0
    decreases hi - lo + 1
  {
    if lo > hi then [] else [lo] + RangeClosed(lo + 1, hi)
  }

  /** The range holds its bounds and each integer between, at its offset from `lo`. */
  lemma {:induction false} RangeClosedElements(lo: int, hi: int)
    ensures forall k :: 0 <= k < |RangeClosed(lo, hi)| ==> RangeClosed(lo, hi)[k] == lo + k
    decreases hi - lo + 1
  {
    if lo <= hi {
      RangeClosedElements(lo + 1, hi);
      var r := RangeClosed(lo, hi);
      assert forall k :: 1 <= k < |r| ==> r[k] == RangeClosed(lo + 1, hi)[k - 1];
    }
  }

  const ServiceYears: seq<int> := RangeClosed(2018, 2025)

  /** The service walks the same eight years as the bulletin fetcher. */
  lemma ServiceYearsAreFetcherYears()
    ensures |ServiceYears| == 8
    ensures ServiceYears == EbulletinPatentFetcher.Years
  {
    RangeClosedElements(2018, 2025);
  }

  /** fetchDatesForYear's address. */
  function DatesUrl(year: int): (url: string)
    ensures StartsWith(url, BaseUrl + "/select_bull_list_published?year=")
  {
    BaseUrl + "/select_bull_list_published?year=" + IntToString(year)
  }

  /** The year is the text after the last '=' of its dates address, and reads back as the year. */
  lemma DatesUrlReadsBack(year: int)
    requires MinInt <= year <= MaxInt
    ensures AfterLast(DatesUrl(year), '=') == IntToString(year)
    ensures ParseInt(AfterLast(DatesUrl(year), '=')) == Some(year)
  {
    DecimalAvoids(year, '=');
    var front := BaseUrl + "/select_bull_list_published?year";
    assert DatesUrl(year) == front + ['='] + IntToString(year);
    AfterLastOfAppended(front, '=', IntToString(year));
    ParseIntOfIntToString(year);
  }

  /** fetchPatentsByCategory's address for a category path, a bulletin index and a date. */
  function CategoryUrl(categoryPath: string, index: string, date: string): (url: string)
    ensures StartsWith(url, BaseUrl + "/")
  {
    BaseUrl + "/" + categoryPath + "/" + index + "/" + date
  }

  /** Three more '/'-separated segments after a text split into its own segments and then these three. */
  lemma PiecesAfter(prefix: string, a: string, b: string, c: string)
    requires '/' !in a && '/' !in b && '/' !in c
    ensures Pieces(prefix + "/" + a + "/" + b + "/" + c, '/') == Pieces(prefix, '/') + [a, b, c]
  {
    var front := Pieces(prefix, '/');
    var parts := front + [a, b, c];
    JoinSnoc(front, a, "/");
    JoinSnoc(front + [a], b, "/");
    assert front + [a] + [b] == front + [a, b];
    JoinSnoc(front + [a, b], c, "/");
    assert front + [a, b] + [c] == parts;
    PiecesOfJoin(parts, '/');
  }

  /**
   * Split at '/', a category address gives the base address's segments,
   * then the category path, the index and the date, when none of the three
   * holds a '/'.
   */
  lemma CategoryUrlPieces(categoryPath: string, index: string, date: string)
    requires '/' !in categoryPath && '/' !in index && '/' !in date
    ensures Pieces(CategoryUrl(categoryPath, index, date), '/') == Pieces(BaseUrl, '/') + [categoryPath, index, date]
  {
    PiecesAfter(BaseUrl, categoryPath, index, date);
  }

  /** The trademark image address of a record id. */
  function ImageUrl(id: int): (url: string)
    ensures StartsWith(url, BaseUrl + "/select_tz_patent_image/")
  {
    BaseUrl + "/select_tz_patent_image/" + IntToString(id)
  }

  /** The id is the last segment of its image address, and reads back as the id. */
  lemma ImageUrlReadsBack(id: int)
    requires MinInt <= id <= MaxInt
    ensures AfterLast(ImageUrl(id), '/') == IntToString(id)
    ensures ParseInt(AfterLast(ImageUrl(id), '/')) == Some(id)
  {
    DecimalAvoids(id, '/');
    var front := BaseUrl + "/select_tz_patent_image";
    assert ImageUrl(id) == front + ['/'] + IntToString(id);
    AfterLastOfAppended(front, '/', IntToString(id));
    ParseIntOfIntToString(id);
  }

  // ---------------------------------------------------------------------------
  // The trademark image step
  // ---------------------------------------------------------------------------

  /** The image request: failed (any error), answered with no body, or the base64 text. */
  datatype ImageReply = ImageFailed | ImageEmpty | ImageBody(base64: string)

  /**
   * addTrademarkImageIfNeeded: only a trademark with an id asks for its
   * image; a failed request keeps the record as it was, and an answer
   * without a body completes empty, so the record leaves the stream (None).
   */
  function AddTrademarkImageIfNeeded(category: string, dto: PatentDto, fetchImage: int -> ImageReply): (r: Option<PatentDto>)
    ensures r.Some? ==> r.value == dto.(imageBase64 := r.value.imageBase64)
    ensures category != TrademarkCategory || dto.id.None? ==> r == Some(dto)
    ensures r.None? <==> category == TrademarkCategory && dto.id.Some? && fetchImage(dto.id.value).ImageEmpty?
    ensures r.Some? && r.value != dto ==>
              category == TrademarkCategory && dto.id.Some? && fetchImage(dto.id.value).ImageBody? &&
              r.value.imageBase64 == Some(fetchImage(dto.id.value).base64)
  {
    if category != TrademarkCategory || dto.id.None? then Some(dto)
    else
      match fetchImage(dto.id.value)
      case ImageFailed => Some(dto)
      case ImageEmpty => None
      case ImageBody(base64) => Some(dto.(imageBase64 := Some(base64)))
  }

  // ---------------------------------------------------------------------------
  // Converting a bulletin record
  // ---------------------------------------------------------------------------

  /** convertToEntity: the bulletin conversion with the API's base address as the site. */
  method ConvertToEntity(dto: PatentDto, category: string) returns (patent: Option<Record>)
    ensures patent == EntityOf(dto, BaseUrl, category, BulletinLabels)
  {
    var filingDate := ParseDate(dto.applicationDate);
    var bulletinDate := ParseDate(dto.publicationDate);
    if filingDate.None? || bulletinDate.None? {
      return None;
    }
    var additionalFields: seq<Attribute> := [];
    additionalFields := AddIfPresent(additionalFields, "code_13", dto.code13);
    additionalFields := AddIfPresent(additionalFields, "field_31", dto.field31);
    additionalFields := AddIfPresent(additionalFields, "field_32", dto.field32);
    additionalFields := AddIfPresent(additionalFields, "field_33", dto.field33);
    additionalFields := AddIfPresent(additionalFields, "date_85", dto.date85);
    additionalFields := AddIfPresent(additionalFields, "field_86", dto.field86);
    additionalFields := AddIfPresent(additionalFields, "referat", dto.description);
    if dto.imageBase64.Some? && dto.imageBase64.value != [] {
      additionalFields := additionalFields + [Attribute("image_base64", dto.imageBase64.value)];
    }
    assert additionalFields == LabelledFields(BulletinLabels, dto) by {
      BulletinFieldsChain(dto);
    }
    patent := Some(Blank.(patentSite := Some(BaseUrl), category := Some(category),
                          securityDocNumber := dto.securityDocNumber, applicationNumber := dto.applicationNumber,
                          filingDate := filingDate, bulletinNumber := dto.bulletinNumber, bulletinDate := bulletinDate,
                          ipc := dto.ipcCodes, authors := dto.authorsRu, owner := dto.ownerRu, title := dto.titleRu,
                          additionalFields := Some(additionalFields)));
  }

  /**
   * The service converts a record exactly as the page-walking harvester
   * does, except that the site is the full API address.
   */
  lemma ConvertsLikeHarvester(dto: PatentDto, category: string)
    ensures var mine := EntityOf(dto, BaseUrl, category, BulletinLabels);
            var theirs := EntityOf(dto, EbulletinSite, category, BulletinLabels);
            mine.Some? == theirs.Some? &&
            (mine.Some? ==> mine.value.patentSite == Some(BaseUrl) && mine.value == theirs.value.(patentSite := Some(BaseUrl)))
  {
  }

  // ---------------------------------------------------------------------------
  // One stage of the fetch stream
  // ---------------------------------------------------------------------------

  /**
   * A bulletin-date entry of fetchDatesForYear's map: the bulletin index as
   * the key and the date as the value.
   */
  datatype DateEntry = DateEntry(index: string, date: string)

  /**
   * The category address as fetchPatents builds it: the entry's key is
   * passed as the `date` parameter and its value as `index`, so the date
   * lands where the index belongs.
   */
  function AsWrittenEntryUrl(categoryPath: string, entry: DateEntry): string {
    CategoryUrl(categoryPath, entry.date, entry.index)
  }

  /** The category address with the index before the date, the order the bulletin API client uses. */
  function EntryUrl(categoryPath: string, entry: DateEntry): string {
    CategoryUrl(categoryPath, entry.index, entry.date)
  }

  /** Whenever index and date differ, the as-written address carries the date in the index position. */
  lemma EntryUrlSwapsIndexAndDate(categoryPath: string, entry: DateEntry)
    requires '/' !in categoryPath && '/' !in entry.index && '/' !in entry.date
    requires entry.index != entry.date
    ensures var pieces := Pieces(AsWrittenEntryUrl(categoryPath, entry), '/');
            |pieces| >= 3 && pieces[|pieces| - 2] == entry.date
    ensures AsWrittenEntryUrl(categoryPath, entry) != EntryUrl(categoryPath, entry)
  {
    CategoryUrlPieces(categoryPath, entry.date, entry.index);
    CategoryUrlPieces(categoryPath, entry.index, entry.date);
  }

  /** The corrected address reads back as the category path, then the index, then the date. */
  lemma EntryUrlReadsBack(categoryPath: string, entry: DateEntry)
    requires '/' !in categoryPath && '/' !in entry.index && '/' !in entry.date
    ensures var pieces := Pieces(EntryUrl(categoryPath, entry), '/');
            |pieces| >= 3 && pieces[|pieces| - 3..] == [categoryPath, entry.index, entry.date]
  {
    CategoryUrlPieces(categoryPath, entry.index, entry.date);
  }

  /**
   * A fetched record's way through the stream as written: the date entry's
   * key travels on as the "category", so it decides the image step and is
   * stored as the record's category.
   */
  function AsWrittenStage(entry: DateEntry, dto: PatentDto, fetchImage: int -> ImageReply): Option<Record> {
    match AddTrademarkImageIfNeeded(entry.index, dto, fetchImage)
    case None => None
    case Some(withImage) => EntityOf(withImage, BaseUrl, entry.index, BulletinLabels)
  }

  /** The same stage with the category the record was fetched under. */
  function Stage(categoryName: string, dto: PatentDto, fetchImage: int -> ImageReply): (r: Option<Record>)
    ensures r.Some? ==> r.value.category == Some(categoryName) && r.value.patentSite == Some(BaseUrl)
    ensures categoryName == TrademarkCategory && dto.id.Some? && fetchImage(dto.id.value).ImageEmpty? ==> r.None?
  {
    match AddTrademarkImageIfNeeded(categoryName, dto, fetchImage)
    case None => None
    case Some(withImage) => EntityOf(withImage, BaseUrl, categoryName, BulletinLabels)
  }

  /**
   * For a numeric bulletin index, a trademark with an id and a non-empty
   * image: the as-written stage stores the index as the category and
   * never fetches the image, while the corrected stage stores the trademark
   * category and the image attribute.
   */
  lemma DateKeyTakesCategoryPlace(entry: DateEntry, dto: PatentDto, fetchImage: int -> ImageReply)
    requires AllDigits(entry.index)
    requires dto.id.Some? && dto.imageBase64.None? && EntityOf(dto, BaseUrl, TrademarkCategory, BulletinLabels).Some?
    requires fetchImage(dto.id.value).ImageBody? && fetchImage(dto.id.value).base64 != []
    ensures var wrong := AsWrittenStage(entry, dto, fetchImage);
            wrong.Some? && wrong.value.category == Some(entry.index) &&
            Attribute("image_base64", fetchImage(dto.id.value).base64) !in wrong.value.additionalFields.value
    ensures var right := Stage(TrademarkCategory, dto, fetchImage);
            right.Some? && right.value.category == Some(TrademarkCategory) &&
            Attribute("image_base64", fetchImage(dto.id.value).base64) in right.value.additionalFields.value
  {
    var image := fetchImage(dto.id.value).base64;
    assert entry.index != TrademarkCategory by {
      assert !IsAsciiDigit(TrademarkCategory[0]);
    }
    var fields := LabelledFields(BulletinLabels, dto);
    LabelledFieldsMeaning(BulletinLabels, dto);
    assert DtoValue(dto, "image_base64") == None;
    forall k | 0 <= k < |fields|
      ensures fields[k] != Attribute("image_base64", image)
    {
    }
    var withImage := dto.(imageBase64 := Some(image));
    LabelledFieldsMeaning(BulletinLabels, withImage);
    assert BulletinLabels[7] == "image_base64";
  }
}
