/** Database handling: a file backend extended with "single instance"
  * behaviour (at most one in-memory document per primary key), and the lazily
  * created main database.
  *
  * The blitzdb file backend underneath is modelled as an abstract document
  * store: a sequence of records, at most one per primary key, in the order the
  * backend lists them. A query is a predicate on records. */
module Db {
  import opened Wrappers
  import Paths

  const MainDbFolder := "main_db"

  type Pk = string
  type Attributes = map<string, string>

  /** A stored document. */
  datatype Record = Record(pk: Pk, attrs: Attributes)

  type Query = Record -> bool

  /** What the backend calls raise. `ListIndexedByPk` is the error of assigning
    * into the result list with a primary key as index. */
  datatype DbError = DoesNotExist | MultipleObjectsReturned | ListIndexedByPk

  /** The query matching the document with primary key `pk`. */
  function PkQuery(pk: Pk): Query {
    (r: Record) => r.pk == pk
  }

  ghost predicate UniquePks(store: seq<Record>) {
    forall i, j :: 0 <= i < j < |store| ==> store[i].pk != store[j].pk
  }

  /** The records a query matches, in store order (the backend's `filter`). */
  function Matches(store: seq<Record>, q: Query): (m: seq<Record>)
    ensures |m| <= |store|
    ensures forall r :: r in m ==> r in store && q(r)
    ensures forall r :: r in store && q(r) ==> r in m
  {
    if store == [] then []
    else (if q(store[0]) then [store[0]] else []) + Matches(store[1..], q)
  }

  /** The record the backend's `get` loads: the only match of the query. */
  function LoadOne(store: seq<Record>, q: Query): (r: Result<Record, DbError>)
    ensures r == Failure(DoesNotExist) <==> forall x :: x in store ==> !q(x)
    ensures r == Failure(MultipleObjectsReturned) <==> |Matches(store, q)| > 1
    ensures r.Success? <==> |Matches(store, q)| == 1
    ensures r.Success? ==> Matches(store, q) == [r.value] && r.value in store && q(r.value)
  {
    var m := Matches(store, q);
    if |m| == 0 then Failure(DoesNotExist)
    else if |m| > 1 then
      assert m[0] in m;
      Failure(MultipleObjectsReturned)
    else
      assert m[0] in m;
      Success(m[0])
  }

  /** The store after the backend's `save`: the record replaces the one with
    * its primary key, or is added at the end. */
  function Upsert(store: seq<Record>, rec: Record): (r: seq<Record>)
    requires UniquePks(store)
    ensures rec in r
    ensures forall x :: x in r ==> x == rec || (x in store && x.pk != rec.pk)
    ensures forall x :: x in store && x.pk != rec.pk ==> x in r
    ensures UniquePks(r)
  {
    if store == [] then [rec]
    else if store[0].pk == rec.pk then
      assert forall x :: x in store[1..] ==> x.pk != rec.pk;
      [rec] + store[1..]
    else
      assert forall x :: x in store[1..] ==> x in store;
      [store[0]] + Upsert(store[1..], rec)
  }

  /** A query no record satisfies matches nothing. */
  lemma {:induction false} NothingMatches(store: seq<Record>, q: Query)
    requires forall x :: x in store ==> !q(x)
    ensures Matches(store, q) == []
  {
    if store != [] {
      assert store[0] in store;
      assert forall x :: x in store[1..] ==> x in store;
      NothingMatches(store[1..], q);
    }
  }

  /** In a store with unique keys the primary-key query matches exactly one record. */
  lemma {:induction false} PkQueryMatchesOne(store: seq<Record>, rec: Record)
    requires UniquePks(store) && rec in store
    ensures Matches(store, PkQuery(rec.pk)) == [rec]
  {
    if store[0] == rec {
      assert forall x :: x in store[1..] ==> x.pk != rec.pk;
      NothingMatches(store[1..], PkQuery(rec.pk));
    } else {
      assert store[0].pk != rec.pk by {
        var k :| 0 <= k < |store| && store[k] == rec;
      }
      PkQueryMatchesOne(store[1..], rec);
    }
  }

  /** A saved record is what `get` by its primary key loads afterwards. */
  lemma SaveThenLoad(store: seq<Record>, rec: Record)
    requires UniquePks(store)
    ensures LoadOne(Upsert(store, rec), PkQuery(rec.pk)) == Success(rec)
  {
    PkQueryMatchesOne(Upsert(store, rec), rec);
  }

  /** Saving one record leaves every other primary key's record where `get` finds it. */
  lemma SaveKeepsOthers(store: seq<Record>, rec: Record, other: Record)
    requires UniquePks(store) && other in store && other.pk != rec.pk
    ensures LoadOne(Upsert(store, rec), PkQuery(other.pk)) == Success(other)
  {
    PkQueryMatchesOne(Upsert(store, rec), other);
  }

  /** An in-memory document. */
  class Document {
    const pk: Pk
    var attrs: Attributes

    constructor(pk: Pk, attrs: Attributes)
      ensures this.pk == pk && this.attrs == attrs
    {
      this.pk := pk;
      this.attrs := attrs;
    }
  }

  /** The registry only grows, and a registered instance stays registered. */
  ghost predicate Extends(before: map<Pk, Document>, after: map<Pk, Document>) {
    before.Keys <= after.Keys && forall k :: k in before ==> after[k] == before[k]
  }

  /** What `filter` returns: a list of documents, or None. */
  datatype FilterResult = Documents(docs: seq<Document>) | NoneReturned | Raised(error: DbError)

  /** `CustomFileBackend`. */
  class CustomFileBackend {
    const path: string
    /** The documents on disk. */
    var store: seq<Record>
    /** `_single_instance_classes`: the one in-memory instance per primary key. */
    var singleInstances: map<Pk, Document>

    ghost predicate Valid()
      reads this
    {
      && UniquePks(store)
      && forall k :: k in singleInstances ==> singleInstances[k].pk == k
    }

    constructor(path: string, onDisk: seq<Record>)
      requires UniquePks(onDisk)
      ensures Valid()
      ensures this.path == path && store == onDisk && singleInstances == map[]
    {
      this.path := path;
      store := onDisk;
      singleInstances := map[];
    }

    /** The backend's own `get`: a new instance of the matching document. */
    method Load(q: Query) returns (r: Result<Document, DbError>)
      ensures LoadOne(store, q).Failure? ==> r == Failure(LoadOne(store, q).error)
      ensures LoadOne(store, q).Success? ==>
                r.Success? && fresh(r.value)
                && r.value.pk == LoadOne(store, q).value.pk && r.value.attrs == LoadOne(store, q).value.attrs
    {
      match LoadOne(store, q)
      case Failure(e) => r := Failure(e);
      case Success(rec) =>
        var doc := new Document(rec.pk, rec.attrs);
        r := Success(doc);
    }

    /** The backend's own `filter`: a new instance of every matching document. */
    method LoadAll(q: Query) returns (docs: seq<Document>)
      ensures var m := Matches(store, q);
              |docs| == |m|
              && forall i :: 0 <= i < |m| ==> fresh(docs[i]) && docs[i].pk == m[i].pk && docs[i].attrs == m[i].attrs
    {
      var m := Matches(store, q);
      docs := [];
      var i := 0;
      while i < |m|
        invariant 0 <= i <= |m|
        invariant |docs| == i
        invariant forall k :: 0 <= k < i ==> fresh(docs[k]) && docs[k].pk == m[k].pk && docs[k].attrs == m[k].attrs
      {
        var doc := new Document(m[i].pk, m[i].attrs);
        docs := docs + [doc];
        i := i + 1;
      }
    }

    /** `get`: with `singleInstance`, the instance already registered for the
      * loaded primary key if there is one, else the loaded instance, now
      * registered; without it, the loaded instance and no registration. */
    method Get(q: Query, singleInstance: bool) returns (r: Result<Document, DbError>)
      requires Valid()
      modifies this`singleInstances
      ensures Valid() && Extends(old(singleInstances), singleInstances)
      ensures LoadOne(store, q).Failure? ==>
                r == Failure(LoadOne(store, q).error) && singleInstances == old(singleInstances)
      ensures LoadOne(store, q).Success? ==> r.Success? && r.value.pk == LoadOne(store, q).value.pk
      ensures !singleInstance ==> singleInstances == old(singleInstances)
      ensures !singleInstance && r.Success? ==> fresh(r.value) && r.value.attrs == LoadOne(store, q).value.attrs
      ensures singleInstance && r.Success? ==> r.value.pk in singleInstances && singleInstances[r.value.pk] == r.value
      ensures singleInstance && r.Success? && r.value.pk in old(singleInstances) ==>
                r.value == old(singleInstances)[r.value.pk] && singleInstances == old(singleInstances)
      ensures singleInstance && r.Success? && r.value.pk !in old(singleInstances) ==>
                fresh(r.value) && r.value.attrs == LoadOne(store, q).value.attrs
                && singleInstances == old(singleInstances)[r.value.pk := r.value]
    {
      var loaded := Load(q);
      if !singleInstance || loaded.Failure? {
        return loaded;
      }
      var doc := loaded.value;
      if doc.pk in singleInstances {
        r := Success(singleInstances[doc.pk]);
      } else {
        singleInstances := singleInstances[doc.pk := doc];
        r := Success(doc);
      }
    }

    /** `filter`: without `singleInstance`, every match as a new instance. With
      * it, the body of the loop over the matches ends in `return`, so only the
      * first match is looked at: a registered primary key gives the list holding
      * the registered instance, an unregistered one raises (the code indexes the
      * result list, not the registry, with the key), and no match at all lets
      * the method end without a return value. */
    method Filter(q: Query, singleInstance: bool) returns (r: FilterResult)
      requires Valid()
      ensures var m := Matches(store, q);
              && (!singleInstance ==>
                    r.Documents? && |r.docs| == |m|
                    && forall i :: 0 <= i < |m| ==> fresh(r.docs[i]) && r.docs[i].pk == m[i].pk && r.docs[i].attrs == m[i].attrs)
              && (singleInstance && m == [] ==> r == NoneReturned)
              && (singleInstance && m != [] && m[0].pk in singleInstances ==>
                    r == Documents([singleInstances[m[0].pk]]))
              && (singleInstance && m != [] && m[0].pk !in singleInstances ==> r == Raised(ListIndexedByPk))
    {
      var results := LoadAll(q);
      if !singleInstance {
        return Documents(results);
      }
      if results == [] {
        return NoneReturned;
      }
      var first := results[0];
      if first.pk in singleInstances {
        r := Documents([singleInstances[first.pk]]);
      } else {
        r := Raised(ListIndexedByPk);
      }
    }

    /** `save`: always write the document to the store; with `singleInstance`,
      * also register it unless its primary key already has an instance, which
      * stays the registered one. */
    method Save(obj: Document, singleInstance: bool)
      requires Valid()
      modifies this`store, this`singleInstances
      ensures Valid() && Extends(old(singleInstances), singleInstances)
      ensures store == Upsert(old(store), Record(obj.pk, obj.attrs))
      ensures singleInstance && obj.pk !in old(singleInstances) ==>
                singleInstances == old(singleInstances)[obj.pk := obj]
      ensures !(singleInstance && obj.pk !in old(singleInstances)) ==>
                singleInstances == old(singleInstances)
    {
      store := Upsert(store, Record(obj.pk, obj.attrs));
      if singleInstance && obj.pk !in singleInstances {
        singleInstances := singleInstances[obj.pk := obj];
      }
    }
  }

  /** Two single-instance gets with one query give one and the same object. */
  method SingleInstanceClient(db: CustomFileBackend, q: Query) returns (first: Result<Document, DbError>, second: Result<Document, DbError>)
    requires db.Valid()
    modifies db
    ensures first.Success? ==> second == first
    ensures first.Failure? ==> second == first
  {
    first := db.Get(q, true);
    second := db.Get(q, true);
  }

  /** A document saved as a single instance is the very object a later
    * single-instance get by its primary key returns. */
  method SaveThenGet(db: CustomFileBackend, obj: Document) returns (r: Result<Document, DbError>)
    requires db.Valid() && obj.pk !in db.singleInstances
    modifies db
    ensures r == Success(obj)
  {
    ghost var before := db.store;
    db.Save(obj, true);
    SaveThenLoad(before, Record(obj.pk, obj.attrs));
    r := db.Get(PkQuery(obj.pk), true);
  }

  /** `DatabaseManager`. */
  class DatabaseManager {
    const profilePath: string
    var mainDb: CustomFileBackend?

    constructor(profilePath: string)
      ensures this.profilePath == profilePath && mainDb == null
    {
      this.profilePath := profilePath;
      mainDb := null;
    }

    /** `main`: create the backend under "<profile>/main_db" on first use
      * (`onDisk` is what that folder holds) and return that same backend on
      * every later call. */
    method MainDatabase(onDisk: seq<Record>) returns (db: CustomFileBackend)
      requires UniquePks(onDisk)
      modifies this`mainDb
      ensures mainDb == db
      ensures old(mainDb) != null ==> db == old(mainDb)
      ensures old(mainDb) == null ==>
                fresh(db) && db.Valid() && db.path == Paths.PathJoin(profilePath, MainDbFolder)
                && db.store == onDisk && db.singleInstances == map[]
    {
      if mainDb == null {
        mainDb := new CustomFileBackend(Paths.PathJoin(profilePath, MainDbFolder), onDisk);
      }
      db := mainDb;
    }
  }
}
