// Documents of the `iss_location` collection as the web client reads them
// back, the record it builds from each one, and the sort key it derives.

module Documents {

  /** A field value as the store hands it back. Only the two time fields are
      interpreted by the client; every other value is carried unchanged. */
  datatype Value =
    | Null
    // JavaScript has one number type. An integral number is always written as
    // `Number`, and only a number with a fractional part as `Float`.
    | Number(n: int)          // an integral number, such as the upstream API's epoch `timestamp`
    | Float(x: real)          // a non-integral number (latitude, longitude, altitude, velocity)
    | Text(s: string)
    | Timestamp(millis: int)  // a store timestamp, seen through its `toMillis()`
    | Other(tag: string)      // any other kind of value (boolean, array, map, ...), opaque

  const IdField: string := "id"
  const TimestampField: string := "timestamp"
  const CreatedAtField: string := "createdAt"

  /** The documents this model covers: `timestamp`, when present, is a number
      or null, and `createdAt`, when present, is a store timestamp or null. */
  predicate TimeFieldsTyped(m: map<string, Value>) {
    && (TimestampField in m ==> m[TimestampField].Number? || m[TimestampField].Null?)
    && (CreatedAtField in m ==> m[CreatedAtField].Timestamp? || m[CreatedAtField].Null?)
  }

  /** A field map: what `doc.data()` returns, and also the shape of the
      records the client builds from documents. */
  type Fields = m: map<string, Value> | TimeFieldsTyped(m) witness map[]

  /** One document of a query snapshot: its store-assigned id and its data. */
  datatype Document = Document(id: string, data: Fields)

  /** The record `{ id: doc.id, ...doc.data() }`. The spread comes second, so
      a data field named `id` overrides the document's own id. */
  function Project(doc: Document): (r: Fields)
    ensures r.Keys == doc.data.Keys + {IdField}
    ensures forall f :: f in doc.data ==> r[f] == doc.data[f]
    ensures IdField !in doc.data ==> r[IdField] == Text(doc.id)
  {
    map[IdField := Text(doc.id)] + doc.data
  }

  /** `m.timestamp` as a number, with absent and null read as 0: the only
      thing JavaScript's `||` asks of a value is whether it is falsy. */
  function TimestampOf(m: Fields): int {
    if TimestampField in m && m[TimestampField].Number? then m[TimestampField].n else 0
  }

  /** `m.createdAt?.toMillis()`, with an absent or null `createdAt` read as 0. */
  function CreatedAtMillis(m: Fields): int {
    if CreatedAtField in m && m[CreatedAtField].Timestamp? then m[CreatedAtField].millis else 0
  }

  /** JavaScript's `a || b` on numbers: `a` unless it is falsy, that is 0. */
  function Or(a: int, b: int): int {
    if a != 0 then a else b
  }

  /** The sort key `timestamp || createdAt?.toMillis() || 0`. */
  function Key(m: Fields): (k: int)
    // a present, non-zero `timestamp` decides, whatever its sign
    ensures TimestampField in m && m[TimestampField].Number? && m[TimestampField].n != 0
            ==> k == m[TimestampField].n
    // failing that, a store-timestamp `createdAt` gives the key in milliseconds
    ensures (TimestampField !in m || m[TimestampField] in {Null, Number(0)})
            && CreatedAtField in m && m[CreatedAtField].Timestamp?
            ==> k == m[CreatedAtField].millis
    // the key is 0 exactly when both fields are falsy
    ensures k == 0 <==>
              (TimestampField !in m || m[TimestampField] in {Null, Number(0)})
              && (CreatedAtField !in m || m[CreatedAtField] in {Null, Timestamp(0)})
    // a non-zero key is always the value of one of the two fields
    ensures k != 0 ==>
              (TimestampField in m && m[TimestampField] == Number(k))
              || (CreatedAtField in m && m[CreatedAtField] == Timestamp(k))
  {
    Or(Or(TimestampOf(m), CreatedAtMillis(m)), 0)
  }

  /** The record built from a document sorts exactly as the document does:
      the `id` the record gains is not one of the time fields. */
  lemma ProjectKeepsKey(doc: Document)
    ensures Key(Project(doc)) == Key(doc.data)
  {
  }
}
