/**
 * The ProductTransaction collection: the shape of one sale record, the schema
 * check the store applies on write, and the store itself.
 */
module ProductTransaction {
  import opened Wrappers

  /** A calendar month as the datastore's `$month` operator reports it: 1 for January. */
  type Month = m: int | 1 <= m <= 12 witness 1

  /** The sale date, reduced to what the queries read: its month of year and its year. */
  datatype SaleDate = SaleDate(month: Month, year: int)

  /** A stored sale record; every field is required by the schema. */
  datatype Record = Record(
    productTitle: string,
    productDescription: string,
    productPrice: real,
    category: string,
    dateOfSale: SaleDate,
    isSold: bool,
    imageUrl: string)

  /**
   * A document as handed to the store before the schema check. `dateOfSale` is
   * `None` when the date given could not be cast to a date.
   */
  datatype Document = Document(
    productTitle: string,
    productDescription: string,
    productPrice: real,
    category: string,
    dateOfSale: Option<SaleDate>,
    isSold: bool,
    imageUrl: string)

  /** The `required` validators: a required string may not be empty, a required date must be a date. */
  predicate Conforms(d: Document)
  {
    d.productTitle != "" && d.productDescription != "" && d.category != ""
    && d.imageUrl != "" && d.dateOfSale.Some?
  }

  /** The record a conforming document is stored as. */
  function ToRecord(d: Document): Record
    requires Conforms(d)
  {
    Record(d.productTitle, d.productDescription, d.productPrice, d.category,
           d.dateOfSale.value, d.isSold, d.imageUrl)
  }

  /**
   * Validates a whole batch before anything is written: the records of all the
   * documents, in order, or `None` as soon as one document does not conform.
   */
  function ValidateAll(docs: seq<Document>): (r: Option<seq<Record>>)
    ensures r.Some? <==> forall i :: 0 <= i < |docs| ==> Conforms(docs[i])
    ensures r.Some? ==> |r.value| == |docs|
    ensures r.Some? ==> forall i :: 0 <= i < |docs| ==> Conforms(docs[i]) && r.value[i] == ToRecord(docs[i])
  {
    if docs == [] then Some([])
    else if !Conforms(docs[0]) then None
    else
      match ValidateAll(docs[1..])
      case None => None
      case Some(rest) => Some([ToRecord(docs[0])] + rest)
  }

  /** The collection of sale records, updated in place by the importer. */
  class Store {
    var records: seq<Record>

    constructor ()
      ensures records == []
    {
      records := [];
    }

    /** `deleteMany({})`: removes every record. */
    method DeleteMany()
      modifies this
      ensures records == []
    {
      records := [];
    }

    /**
     * `insertMany(docs)`: validates every document first; if all conform they are
     * appended in order and `ok` is true, otherwise nothing is written.
     */
    method InsertMany(docs: seq<Document>) returns (ok: bool)
      modifies this
      ensures ok <==> forall i :: 0 <= i < |docs| ==> Conforms(docs[i])
      ensures ok ==> records == old(records) + ValidateAll(docs).value
      ensures !ok ==> records == old(records)
    {
      var validated := ValidateAll(docs);
      ok := validated.Some?;
      if ok {
        records := records + validated.value;
      }
    }
  }
}
