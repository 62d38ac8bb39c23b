/** Blind-index search (crypto/searchable.py and search_by_index of engine.py). */
module Search {
  type Bytes = seq<int>
  type RecordId = string
  type UserId = string

  datatype Option<T> = None | Some(value: T)

  /** The bytes that are hashed: the field name, a zero byte, and the value. */
  function Encode(field: Bytes, value: Bytes): Bytes {
    field + [0] + value
  }

  ghost predicate NulFree(field: Bytes) {
    0 !in field
  }

  /** Two different field names have values that encode alike exactly when one name continues the
    other after a zero byte. */
  lemma NamesCollideIff(field: Bytes, field': Bytes)
    requires field != field'
    ensures (exists value, value' :: Encode(field, value) == Encode(field', value')) <==>
            field + [0] <= field' || field' + [0] <= field
  {
    if field + [0] <= field' {
      Continues(field, field');
    } else if field' + [0] <= field {
      Continues(field', field);
    }
    forall value, value' | Encode(field, value) == Encode(field', value')
      ensures field + [0] <= field' || field' + [0] <= field
    {
      PrefixOfEncoding(field, value, field', value');
    }
  }

  lemma Continues(field: Bytes, field': Bytes)
    requires field + [0] <= field'
    ensures exists value, value' :: Encode(field, value) == Encode(field', value')
    ensures exists value, value' :: Encode(field', value') == Encode(field, value)
  {
    var value := field'[|field| + 1..] + [0];
    assert field' == field + [0] + field'[|field| + 1..];
    assert Encode(field, value) == Encode(field', []);
  }

  lemma PrefixOfEncoding(field: Bytes, value: Bytes, field': Bytes, value': Bytes)
    requires Encode(field, value) == Encode(field', value')
    ensures field == field' || field + [0] <= field' || field' + [0] <= field
    ensures field == field' ==> value == value'
  {
    var e, e' := Encode(field, value), Encode(field', value');
    assert e[..|field| + 1] == field + [0] && e'[..|field'| + 1] == field' + [0];
    assert e[..|field|] == field && e'[..|field'|] == field';
    assert e[|field| + 1..] == value && e'[|field'| + 1..] == value';
    if |field| < |field'| {
      assert e'[..|field'|][..|field| + 1] == e'[..|field| + 1];
    } else if |field'| < |field| {
      assert e[..|field|][..|field'| + 1] == e[..|field'| + 1];
    }
  }

  /** Domain separation: field names without a zero byte keep pairs of field and value apart. */
  lemma EncodeInjective(field: Bytes, value: Bytes, field': Bytes, value': Bytes)
    requires NulFree(field) && NulFree(field')
    ensures Encode(field, value) == Encode(field', value') <==> field == field' && value == value'
  {
    if Encode(field, value) == Encode(field', value') {
      PrefixOfEncoding(field, value, field', value');
      ContinuationHasNul(field, field');
      ContinuationHasNul(field', field);
    }
  }

  lemma ContinuationHasNul(field: Bytes, field': Bytes)
    ensures field + [0] <= field' ==> 0 in field'
  {
    assert (field + [0])[|field|] == 0;
  }

  /** Within one field the encoding keeps values apart whatever the name. */
  lemma SameFieldInjective(field: Bytes, value: Bytes, value': Bytes)
    ensures Encode(field, value) == Encode(field, value') <==> value == value'
  {
    assert Encode(field, value)[|field| + 1..] == value;
    assert Encode(field, value')[|field| + 1..] == value';
  }

  /** The keyed hash: a key and the data. */
  type Hmac = (Bytes, Bytes) -> Bytes

  ghost predicate CollisionFree(h: Hmac) {
    forall k, d, k', d' :: h(k, d) == h(k', d') ==> k == k' && d == d'
  }

  /** None stands for the ValueError of a key that is not 32 bytes long. */
  function Index(h: Hmac, key: Bytes, value: Bytes, field: Bytes): Option<Bytes> {
    if |key| != 32 then None else Some(h(key, Encode(field, value)))
  }

  /** A stored record: its tokens by field and, as history, the fields it was put with and the search
    key of that moment. */
  datatype Record = Record(id: RecordId, owner: UserId, deleted: bool, tokens: map<Bytes, Bytes>,
                           plain: map<Bytes, Bytes>, key: Bytes)

  /** The record that put stores. A search key is only asked to be 32 bytes long when there is a field to
    index; None stands for the ValueError when it is not. */
  function PutRecord(h: Hmac, key: Bytes, id: RecordId, owner: UserId, plain: map<Bytes, Bytes>): Option<Record> {
    if plain == map[] then Some(Record(id, owner, false, map[], plain, key))
    else if |key| != 32 then None
    else Some(Record(id, owner, false, map f | f in plain :: Index(h, key, plain[f], f).value, plain, key))
  }

  /** Every record is as put stored it, apart from a soft delete. */
  ghost predicate Stored(h: Hmac, records: seq<Record>) {
    forall r :: r in records ==> PutRecord(h, r.key, r.id, r.owner, r.plain) == Some(r.(deleted := false))
  }

  /** Who may read what: the owner, a holder of a read grant, and an admin. */
  datatype Reader = Reader(id: UserId, grants: set<RecordId>, admin: bool)

  predicate MayRead(reader: Reader, r: Record) {
    r.owner == reader.id || r.id in reader.grants || reader.admin
  }

  predicate TokenMatches(r: Record, field: Bytes, token: Bytes) {
    field in r.tokens && r.tokens[field] == token
  }

  function Matches(records: seq<Record>, reader: Reader, field: Bytes, token: Bytes): seq<RecordId> {
    if records == [] then []
    else
      var n := |records| - 1;
      Matches(records[..n], reader, field, token)
      + (if !records[n].deleted && MayRead(reader, records[n]) && TokenMatches(records[n], field, token)
         then [records[n].id] else [])
  }

  method SearchByIndex(h: Hmac, key: Bytes, records: seq<Record>, reader: Reader, field: Bytes, value: Bytes)
    returns (r: Option<seq<RecordId>>)
    ensures |key| != 32 ==> r == None
    ensures |key| == 32 ==> r == Some(Matches(records, reader, field, h(key, Encode(field, value))))
  {
    var target := Index(h, key, value, field);
    if target.None? {
      return None;
    }
    var matches: seq<RecordId> := [];
    for i := 0 to |records|
      invariant matches == Matches(records[..i], reader, field, target.value)
    {
      assert records[..i + 1][..i] == records[..i];
      var record := records[i];
      if !record.deleted {
        if record.owner == reader.id || record.id in reader.grants || reader.admin {
          if field in record.tokens && record.tokens[field] == target.value {
            matches := matches + [record.id];
          }
        }
      }
    }
    assert records[..|records|] == records;
    r := Some(matches);
  }

  /** The reference: a scan over the plaintexts of the records put under this key. */
  function PlainScan(records: seq<Record>, reader: Reader, key: Bytes, field: Bytes, value: Bytes): seq<RecordId> {
    if records == [] then []
    else
      var n := |records| - 1;
      var r := records[n];
      PlainScan(records[..n], reader, key, field, value)
      + (if && !r.deleted
            && (r.owner == reader.id || r.id in reader.grants || reader.admin)
            && r.key == key && field in r.plain && r.plain[field] == value
         then [r.id] else [])
  }

  /** A search by token finds exactly what a scan over the plaintexts would find among the active,
    accessible records that were put under the current key: records put before a key rotation are
    not found. */
  lemma {:induction false} SearchEqualsScan(h: Hmac, key: Bytes, records: seq<Record>, reader: Reader, field: Bytes,
                                            value: Bytes)
    requires CollisionFree(h) && |key| == 32 && Stored(h, records)
    ensures Matches(records, reader, field, h(key, Encode(field, value)))
         == PlainScan(records, reader, key, field, value)
  {
    if records != [] {
      var n := |records| - 1;
      var r := records[n];
      assert forall q :: q in records[..n] ==> q in records;
      SearchEqualsScan(h, key, records[..n], reader, field, value);
      assert r in records;
      if field in r.plain {
        SameFieldInjective(field, r.plain[field], value);
      }
    }
  }
}
