/**
 * The first-generation card harvester: the text of each search-result card
 * is read line by line into a card record, which is saved when its
 * application number is new and its status is not empty.
 */
module PatentParserService {
  import opened Wrappers
  import opened JavaText
  import opened PatentModel
  import PatentValidator

  // ---------------------------------------------------------------------------
  // Reading a card
  // ---------------------------------------------------------------------------

  /** The trimmed rest of the first line that starts with `fieldLabel`, or "" when no line does. */
  function FirstLineValue(lines: seq<string>, fieldLabel: string): string
  {
    if lines == [] then ""
    else if StartsWith(lines[0], fieldLabel) then Trim(lines[0][|fieldLabel|..])
    else FirstLineValue(lines[1..], fieldLabel)
  }

  /** getFieldValue: the card split at each newline, then scanned line by line. */
  function GetFieldValue(card: string, fieldLabel: string): string {
    FirstLineValue(Split(card, '\n'), fieldLabel)
  }

  /** The first line that starts with the label decides; every later line is ignored. */
  lemma {:induction false} FirstMatchingLineDecides(lines: seq<string>, fieldLabel: string, k: nat)
    requires k < |lines| && StartsWith(lines[k], fieldLabel)
    requires forall j :: 0 <= j < k ==> !StartsWith(lines[j], fieldLabel)
    ensures FirstLineValue(lines, fieldLabel) == Trim(lines[k][|fieldLabel|..])
  {
    if k > 0 {
      assert !StartsWith(lines[0], fieldLabel);
      FirstMatchingLineDecides(lines[1..], fieldLabel, k - 1);
    }
  }

  /** With no line starting with the label the value is the empty string. */
  lemma {:induction false} MissingLabelGivesEmpty(lines: seq<string>, fieldLabel: string)
    requires forall j :: 0 <= j < |lines| ==> !StartsWith(lines[j], fieldLabel)
    ensures FirstLineValue(lines, fieldLabel) == ""
  {
    if lines != [] {
      MissingLabelGivesEmpty(lines[1..], fieldLabel);
    }
  }

  /**
   * A value the card prints on the first line after its label reads back,
   * trimmed, whatever the later lines hold.
   */
  lemma LeadingFieldReadsBack(fieldLabel: string, value: string, rest: string)
    requires '\n' !in fieldLabel + value
    ensures GetFieldValue(fieldLabel + value + "\n" + rest, fieldLabel) == Trim(value)
  {
    var card := fieldLabel + value + "\n" + rest;
    var first := fieldLabel + value;
    var parts := Pieces(rest, '\n');
    assert card == Join([first] + parts, "\n") by {
      assert ([first] + parts)[1..] == parts;
      if |parts| == 1 {
        assert Join([first] + parts, "\n") == first + "\n" + parts[0];
      }
    }
    PiecesOfJoin([first] + parts, '\n');
    assert card[|first|] == '\n';
    var split := Split(card, '\n');
    assert split == DropTrailingEmpty([first] + parts);
    assert first != [] || fieldLabel == [] ;
    if first == [] {
      // an empty first line matches the empty label; an empty remainder trims to ""
      assert Trim(value) == [];
      if split != [] {
        assert split[0] == first;
        assert StartsWith(split[0], fieldLabel);
      }
    } else {
      assert split[0] == first;
      assert StartsWith(split[0], fieldLabel) && split[0][|fieldLabel|..] == value;
    }
  }

  /** extractPatentData: ten labelled lines of the card, and the category as the document type. */
  function ExtractPatentData(cardText: string, category: string): (p: CardPatent)
    ensures p.typeOfDocument == category
    ensures p.status == GetFieldValue(cardText, "Статус: ")
    ensures p.applicationNumber == GetFieldValue(cardText, "Номер заявки: ")
  {
    CardPatent(
      GetFieldValue(cardText, "Название: "),
      GetFieldValue(cardText, "Номер заявки: "),
      GetFieldValue(cardText, "Дата подачи заявки: "),
      GetFieldValue(cardText, "Автор(-ы): "),
      GetFieldValue(cardText, "Патентообладатель: "),
      GetFieldValue(cardText, "№ охранного документа: "),
      GetFieldValue(cardText, "Статус: "),
      GetFieldValue(cardText, "МПК: "),
      GetFieldValue(cardText, "Номер бюллетеня: "),
      GetFieldValue(cardText, "Дата бюллетеня: "),
      category)
  }

  // ---------------------------------------------------------------------------
  // The card decision
  // ---------------------------------------------------------------------------

  /** The fields a card record shares with the registry record, as the validator sees them. */
  function AsRecord(p: CardPatent): Record {
    Blank.(title := Some(p.title), applicationNumber := Some(p.applicationNumber), authors := Some(p.authors),
           patentHolder := Some(p.patentHolder), securityDocNumber := Some(p.securityDocNumber),
           status := Some(p.status), ipc := Some(p.ipc), bulletinNumber := Some(p.bulletinNumber))
  }

  /** The number of stored cards with this application number. */
  function CountApplication(rows: seq<CardPatent>, applicationNumber: string): nat {
    if rows == [] then 0
    else CountApplication(rows[..|rows| - 1], applicationNumber) + (if rows[|rows| - 1].applicationNumber == applicationNumber then 1 else 0)
  }

  /** What becomes of one card. */
  datatype CardOutcome =
    | AlreadyStored   // the application number is in the table: skipped
    | Saved           // new and valid
    | Invalid         // new but with an empty status: skipped without a trace
    | LookupThrew     // several stored cards share the number: the finder throws and the category ends

  /**
   * The loop body of parsePatents: the application-number lookup first, the
   * validator second.
   */
  function CardDecision(p: CardPatent, rows: seq<CardPatent>): (r: CardOutcome)
    ensures r == Saved <==> CountApplication(rows, p.applicationNumber) == 0 && p.status != []
    ensures r == AlreadyStored <==> CountApplication(rows, p.applicationNumber) == 1
    ensures r == LookupThrew <==> CountApplication(rows, p.applicationNumber) >= 2
  {
    var count := CountApplication(rows, p.applicationNumber);
    if count >= 2 then LookupThrew
    else if count == 1 then AlreadyStored
    else if PatentValidator.IsValid(Some(AsRecord(p))) then Saved
    else Invalid
  }

  /** A card without a "Статус: " line gets an empty status and is never saved. */
  lemma NoStatusLineIsNeverSaved(cardText: string, category: string, rows: seq<CardPatent>)
    requires forall j :: 0 <= j < |Split(cardText, '\n')| ==> !StartsWith(Split(cardText, '\n')[j], "Статус: ")
    ensures CardDecision(ExtractPatentData(cardText, category), rows) != Saved
  {
    MissingLabelGivesEmpty(Split(cardText, '\n'), "Статус: ");
  }

  /** The table after the cards, and whether a lookup threw part way. */
  datatype CardsRun = CardsRun(rows: seq<CardPatent>, threw: bool)

  /** parsePatents over the texts of the cards on the page, in order. */
  function CardsFrom(cards: seq<string>, category: string, rows: seq<CardPatent>): CardsRun
    decreases |cards|
  {
    if cards == [] then CardsRun(rows, false)
    else
      var p := ExtractPatentData(cards[0], category);
      match CardDecision(p, rows)
      case LookupThrew => CardsRun(rows, true)
      case Saved => CardsFrom(cards[1..], category, rows + [p])
      case _ => CardsFrom(cards[1..], category, rows)
  }

  /** No two stored cards share an application number. */
  predicate UniqueApplications(rows: seq<CardPatent>) {
    forall i, j :: 0 <= i < j < |rows| ==> rows[i].applicationNumber != rows[j].applicationNumber
  }

  lemma {:induction false} CountOfUnique(rows: seq<CardPatent>, applicationNumber: string)
    requires forall j :: 0 <= j < |rows| ==> rows[j].applicationNumber != applicationNumber
    ensures CountApplication(rows, applicationNumber) == 0
  {
    if rows != [] {
      CountOfUnique(rows[..|rows| - 1], applicationNumber);
    }
  }

  lemma {:induction false} CountFindsRow(rows: seq<CardPatent>, j: nat)
    requires j < |rows|
    ensures CountApplication(rows, rows[j].applicationNumber) >= 1
  {
    if j < |rows| - 1 {
      CountFindsRow(rows[..|rows| - 1], j);
    }
  }

  /**
   * The cards only ever append, each appended card is valid and was new to
   * the table when it was saved, so a table without repeated application
   * numbers keeps that property.
   */
  lemma {:induction false} CardsOnlyAddNewValid(cards: seq<string>, category: string, rows: seq<CardPatent>)
    requires UniqueApplications(rows)
    ensures var r := CardsFrom(cards, category, rows).rows;
            |rows| <= |r| && r[..|rows|] == rows && UniqueApplications(r) &&
            forall j :: |rows| <= j < |r| ==> r[j].status != [] && r[j].typeOfDocument == category
    decreases |cards|
  {
    if cards != [] {
      var p := ExtractPatentData(cards[0], category);
      if CardDecision(p, rows) == Saved {
        var grown := rows + [p];
        forall j | 0 <= j < |rows|
          ensures rows[j].applicationNumber != p.applicationNumber
        {
          if rows[j].applicationNumber == p.applicationNumber {
            CountFindsRow(rows, j);
          }
        }
        assert UniqueApplications(grown);
        CardsOnlyAddNewValid(cards[1..], category, grown);
        var r := CardsFrom(cards[1..], category, grown).rows;
        assert r[..|rows|] == r[..|grown|][..|rows|];
        assert r[|rows|] == p;
      } else {
        CardsOnlyAddNewValid(cards[1..], category, rows);
      }
    } else {
      assert rows[..|rows|] == rows;
    }
  }

  /** A card whose application number is already stored leaves the table as it is. */
  lemma StoredCardChangesNothing(cardText: string, category: string, rest: seq<string>, rows: seq<CardPatent>, j: nat)
    requires UniqueApplications(rows)
    requires j < |rows| && rows[j].applicationNumber == ExtractPatentData(cardText, category).applicationNumber
    ensures CardsFrom([cardText] + rest, category, rows) == CardsFrom(rest, category, rows)
  {
    var p := ExtractPatentData(cardText, category);
    CountFindsRow(rows, j);
    assert CardDecision(p, rows) != Saved;
    assert CountApplication(rows, p.applicationNumber) < 2 by {
      UniqueCount(rows, p.applicationNumber);
    }
    assert ([cardText] + rest)[1..] == rest;
  }

  /** In a table without repeats each application number is counted at most once. */
  lemma {:induction false} UniqueCount(rows: seq<CardPatent>, applicationNumber: string)
    requires UniqueApplications(rows)
    ensures CountApplication(rows, applicationNumber) <= 1
  {
    if rows != [] {
      var front := rows[..|rows| - 1];
      UniqueCount(front, applicationNumber);
      if rows[|rows| - 1].applicationNumber == applicationNumber {
        CountOfUnique(front, applicationNumber);
      }
    }
  }

  /**
   * The shared patent table as the card parser sees it: only the rows it
   * saved itself, looked up by application number.
   */
  class CardTable {
    var rows: seq<CardPatent>

    constructor ()
      ensures rows == []
    {
      rows := [];
    }

    /** save: one more row. */
    method Save(p: CardPatent)
      modifies this
      ensures rows == old(rows) + [p]
    {
      rows := rows + [p];
    }

    /** findByApplicationNumber(..).isPresent(): present when exactly one row matches; several make the finder throw. */
    method IsPatentExists(p: CardPatent) returns (r: Option<bool>)
      ensures r == Some(true) <==> CountApplication(rows, p.applicationNumber) == 1
      ensures r == Some(false) <==> CountApplication(rows, p.applicationNumber) == 0
    {
      var count := CountApplication(rows, p.applicationNumber);
      r := if count >= 2 then None else Some(count == 1);
    }

    /** parsePatents on the cards of one result page. */
    method ParsePatents(cards: seq<string>, category: string) returns (threw: bool)
      modifies this
      ensures CardsRun(rows, threw) == CardsFrom(cards, category, old(rows))
    {
      if |cards| == 0 {
        return false;
      }
      ghost var start := rows;
      threw := false;
      for i := 0 to |cards|
        invariant CardsFrom(cards, category, start) == CardsFrom(cards[i..], category, rows)
      {
        assert cards[i..][1..] == cards[i + 1..];
        var patent := ExtractPatentData(cards[i], category);
        var known := IsPatentExists(patent);
        if known.None? {
          return true;
        }
        if known == Some(true) {
          assert CardDecision(patent, rows) == AlreadyStored;
          continue;
        }
        assert known.Some? && !known.value;
        assert CountApplication(rows, patent.applicationNumber) == 0;
        if PatentValidator.IsValid(Some(AsRecord(patent))) {
          assert CardDecision(patent, rows) == Saved;
          Save(patent);
        } else {
          assert AsRecord(patent).status == Some(patent.status) && patent.status == [];
          assert CardDecision(patent, rows) == Invalid;
        }
      }
      assert cards[|cards|..] == [];
    }
  }
}
