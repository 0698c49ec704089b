/**
 * The scraper's data: the patent record every source fills, its free-form
 * label/value attributes, the ledger of registry document numbers, the
 * bulletin API's transfer object and the legacy card record.
 */
module PatentModel {
  import opened Wrappers
  import opened LocalDates

  /** One label/value pair that is not a core field; its owning record is the one holding it. */
  datatype Attribute = Attribute(fieldLabel: string, value: string)

  /** The patent entity; every field may be unset (null). */
  datatype Record = Record(
    title: Option<string>,
    applicationNumber: Option<string>,
    authors: Option<string>,
    patentHolder: Option<string>,
    securityDocNumber: Option<string>,
    registrationNumber: Option<string>,
    status: Option<string>,
    ipc: Option<string>,
    mkpo: Option<string>,
    bulletinNumber: Option<string>,
    sortName: Option<string>,
    owner: Option<string>,
    name: Option<string>,
    docNumber: Option<string>,
    imageUrl: Option<string>,
    category: Option<string>,
    patentSite: Option<string>,
    filingDate: Option<Date>,
    registrationDate: Option<Date>,
    expirationDate: Option<Date>,
    bulletinDate: Option<Date>,
    additionalFields: Option<seq<Attribute>>)

  /** A freshly constructed record: every field unset. */
  const Blank: Record := Record(None, None, None, None, None, None, None, None, None, None, None,
                                None, None, None, None, None, None, None, None, None, None, None)

  /** A registry document number the crawler has seen, and whether its detail page was harvested. */
  datatype LedgerEntry = LedgerEntry(category: string, documentNumber: string, isParsed: bool)

  /** The bulletin API's view of one publication; every field may be absent. */
  datatype PatentDto = PatentDto(
    id: Option<int>,
    publicationDate: Option<string>,
    bulletinNumber: Option<string>,
    code13: Option<string>,
    securityDocNumber: Option<string>,
    ipcCodes: Option<string>,
    applicationNumber: Option<string>,
    applicationDate: Option<string>,
    field31: Option<string>,
    field32: Option<string>,
    field33: Option<string>,
    date85: Option<string>,
    field86: Option<string>,
    field181: Option<string>,
    field730Ru: Option<string>,
    field526Ru: Option<string>,
    field591: Option<string>,
    field510511: Option<string>,
    authorsRu: Option<string>,
    ownerRu: Option<string>,
    titleRu: Option<string>,
    description: Option<string>,
    imageBase64: Option<string>)

  /** The legacy search-card record: ten text fields read off the card and the category as document type. */
  datatype CardPatent = CardPatent(
    title: string,
    applicationNumber: string,
    filingDate: string,
    authors: string,
    patentHolder: string,
    securityDocNumber: string,
    status: string,
    ipc: string,
    bulletinNumber: string,
    bulletinDate: string,
    typeOfDocument: string)
}
