/** The document store's side of an unordered bulk insert (`insert_many(...,
    ordered=False)`): every document is tried, a document the collection's schema
    validator rejects or whose unique key is already taken is reported as a write
    error, and the others are appended. The validator and the unique key are
    parameters: they are configured in the store, not in the application. */
module BulkWrite {

  /** MongoDB error codes the application tells apart. */
  const MULTIPLE_ERRORS_OCCURRED_ERROR := 65
  const DUPLICATE_KEY_ERROR := 11000
  const DOCUMENT_VALIDATION_FAILURE_ERROR := 121

  /** One entry of `writeErrors`: the index of the document in the batch, the error
      code, and for a duplicate-key error the fields of the violated index. */
  datatype WriteError = WriteError(index: nat, code: int, keyPattern: set<string>)

  /** What the store reports: the collection afterwards, `nInserted`, `writeErrors`. */
  datatype BulkResult<T> = BulkResult(stored: seq<T>, nInserted: nat, writeErrors: seq<WriteError>)

  /** The unique keys present in a collection. */
  function KeySet<T, K>(s: seq<T>, key: T -> K): set<K> {
    set i | 0 <= i < |s| :: key(s[i])
  }

  /** The unique index holds: no two documents share a key. */
  predicate UniqueKeys<T, K(==)>(s: seq<T>, key: T -> K) {
    forall i, j :: 0 <= i < j < |s| ==> key(s[i]) != key(s[j])
  }

  /** The keys of the documents of a batch that pass validation. */
  function AcceptedKeys<T, K>(docs: seq<T>, key: T -> K, accepts: T -> bool): set<K> {
    set i | 0 <= i < |docs| && accepts(docs[i]) :: key(docs[i])
  }

  /** A write error the store can report for document `i` of `docs`. */
  predicate WellFormedError<T>(e: WriteError, docs: seq<T>, accepts: T -> bool, keyPattern: set<string>) {
    && e.index < |docs|
    && (|| (e.code == DOCUMENT_VALIDATION_FAILURE_ERROR && !accepts(docs[e.index]))
        || (e.code == DUPLICATE_KEY_ERROR && e.keyPattern == keyPattern && accepts(docs[e.index])))
  }

  lemma KeySetSnoc<T, K>(s: seq<T>, x: T, key: T -> K)
    ensures KeySet(s + [x], key) == KeySet(s, key) + {key(x)}
  {
    var t := s + [x];
    assert key(t[|s|]) == key(x);
    forall k | k in KeySet(s, key) ensures k in KeySet(t, key) {
      var i :| 0 <= i < |s| && key(s[i]) == k;
      assert key(t[i]) == k;
    }
  }

  lemma AcceptedKeysSnoc<T, K>(docs: seq<T>, key: T -> K, accepts: T -> bool)
    requires docs != []
    ensures var n := |docs| - 1;
      AcceptedKeys(docs, key, accepts)
      == AcceptedKeys(docs[..n], key, accepts) + (if accepts(docs[n]) then {key(docs[n])} else {})
  {
    var n := |docs| - 1;
    var init := docs[..n];
    forall k | k in AcceptedKeys(init, key, accepts) ensures k in AcceptedKeys(docs, key, accepts) {
      var i :| 0 <= i < |init| && accepts(init[i]) && key(init[i]) == k;
      assert docs[i] == init[i];
    }
    forall k | k in AcceptedKeys(docs, key, accepts) && k !in AcceptedKeys(init, key, accepts)
      ensures accepts(docs[n]) && k == key(docs[n])
    {
      var i :| 0 <= i < |docs| && accepts(docs[i]) && key(docs[i]) == k;
      assert i == n;
    }
  }

  /** The unordered insert, document by document in batch order: a rejected document
      gets a validation error, a document whose key is already stored (or was stored
      earlier in the same batch) a duplicate-key error, any other document is appended. */
  function InsertMany<T, K(==)>(coll: seq<T>, docs: seq<T>, key: T -> K, accepts: T -> bool,
                                keyPattern: set<string>): (r: BulkResult<T>)
    ensures |coll| <= |r.stored| && r.stored[..|coll|] == coll
    ensures r.nInserted == |r.stored| - |coll|
    ensures r.nInserted + |r.writeErrors| == |docs|
    ensures forall i :: |coll| <= i < |r.stored| ==> r.stored[i] in docs && accepts(r.stored[i])
    ensures forall e :: e in r.writeErrors ==> WellFormedError(e, docs, accepts, keyPattern)
    ensures UniqueKeys(coll, key) ==> UniqueKeys(r.stored, key)
    ensures KeySet(r.stored, key) == KeySet(coll, key) + AcceptedKeys(docs, key, accepts)
    decreases |docs|
  {
    if docs == [] then
      assert AcceptedKeys(docs, key, accepts) == {};
      BulkResult(coll, 0, [])
    else
      var n := |docs| - 1;
      var d := docs[n];
      var prev := InsertMany(coll, docs[..n], key, accepts, keyPattern);
      AcceptedKeysSnoc(docs, key, accepts);
      ErrorsOfPrefix(prev.writeErrors, docs, accepts, keyPattern);
      StoredFromPrefix(coll, prev.stored, docs, accepts);
      if !accepts(d) then
        BulkResult(prev.stored, prev.nInserted,
                   prev.writeErrors + [WriteError(n, DOCUMENT_VALIDATION_FAILURE_ERROR, {})])
      else if key(d) in KeySet(prev.stored, key) then
        BulkResult(prev.stored, prev.nInserted,
                   prev.writeErrors + [WriteError(n, DUPLICATE_KEY_ERROR, keyPattern)])
      else
        AppendNewKey(coll, prev.stored, d, key);
        BulkResult(prev.stored + [d], prev.nInserted + 1, prev.writeErrors)
  }

  /** Write errors about the first documents of a batch are write errors about the batch. */
  lemma ErrorsOfPrefix<T>(errors: seq<WriteError>, docs: seq<T>, accepts: T -> bool, keyPattern: set<string>)
    requires docs != []
    requires forall e :: e in errors ==> WellFormedError(e, docs[..|docs| - 1], accepts, keyPattern)
    ensures forall e :: e in errors ==> WellFormedError(e, docs, accepts, keyPattern)
  {
    forall e | e in errors ensures WellFormedError(e, docs, accepts, keyPattern) {
      assert docs[..|docs| - 1][e.index] == docs[e.index];
    }
  }

  /** Documents stored from the first documents of a batch come from the batch. */
  lemma StoredFromPrefix<T>(coll: seq<T>, stored: seq<T>, docs: seq<T>, accepts: T -> bool)
    requires docs != []
    requires forall i :: |coll| <= i < |stored| ==> stored[i] in docs[..|docs| - 1] && accepts(stored[i])
    ensures forall i :: |coll| <= i < |stored| ==> stored[i] in docs && accepts(stored[i])
  {
    forall i | |coll| <= i < |stored| ensures stored[i] in docs {
      var j :| 0 <= j < |docs| - 1 && docs[..|docs| - 1][j] == stored[i];
      assert docs[j] == stored[i];
    }
  }

  /** Appending a document with a key not yet stored keeps the prefix and the unique
      index, and adds its key. */
  lemma AppendNewKey<T, K>(coll: seq<T>, stored: seq<T>, d: T, key: T -> K)
    requires |coll| <= |stored| && stored[..|coll|] == coll
    requires key(d) !in KeySet(stored, key)
    ensures (stored + [d])[..|coll|] == coll
    ensures UniqueKeys(stored, key) ==> UniqueKeys(stored + [d], key)
    ensures KeySet(stored + [d], key) == KeySet(stored, key) + {key(d)}
  {
    KeySetSnoc(stored, d, key);
    assert (stored + [d])[..|coll|] == stored[..|coll|];
    if UniqueKeys(stored, key) {
      forall i, j | 0 <= i < j < |stored + [d]| ensures key((stored + [d])[i]) != key((stored + [d])[j]) {
        if j == |stored| {
          assert key(stored[i]) in KeySet(stored, key);
        }
      }
    }
  }

  /** The documents of a batch that pass validation, in batch order. */
  function Accepted<T>(docs: seq<T>, accepts: T -> bool): (r: seq<T>)
    ensures |r| <= |docs|
    ensures forall x :: x in r ==> x in docs && accepts(x)
    ensures forall i :: 0 <= i < |docs| && accepts(docs[i]) ==> docs[i] in r
    decreases |docs|
  {
    if docs == [] then []
    else
      var n := |docs| - 1;
      assert forall i :: 0 <= i < n ==> docs[..n][i] == docs[i];
      Accepted(docs[..n], accepts) + (if accepts(docs[n]) then [docs[n]] else [])
  }

  /** The accepted list holds each accepted document as often as the batch does, and
      nothing else. */
  lemma {:induction false} AcceptedCounts<T>(docs: seq<T>, accepts: T -> bool)
    ensures forall x :: multiset(Accepted(docs, accepts))[x] == if accepts(x) then multiset(docs)[x] else 0
    ensures multiset(Accepted(docs, accepts)) <= multiset(docs)
    decreases |docs|
  {
    if docs != [] {
      var n := |docs| - 1;
      AcceptedCounts(docs[..n], accepts);
      assert docs == docs[..n] + [docs[n]];
    }
  }

  /** The positions of the documents a validator rejects. */
  function Rejected<T>(docs: seq<T>, accepts: T -> bool): set<nat> {
    set i | 0 <= i < |docs| && !accepts(docs[i])
  }

  /** The documents of a batch at the positions not in `reported`, in batch order. */
  function Unreported<T>(docs: seq<T>, reported: set<nat>): seq<T>
    decreases |docs|
  {
    if docs == [] then []
    else
      var n := |docs| - 1;
      Unreported(docs[..n], reported) + (if n in reported then [] else [docs[n]])
  }

  /** Unreported depends only on the positions inside the batch. */
  lemma {:induction false} UnreportedAgrees<T>(docs: seq<T>, a: set<nat>, b: set<nat>)
    requires forall i: nat :: i < |docs| ==> (i in a <==> i in b)
    ensures Unreported(docs, a) == Unreported(docs, b)
    decreases |docs|
  {
    if docs != [] {
      UnreportedAgrees(docs[..|docs| - 1], a, b);
    }
  }

  /** The accepted documents are the batch without its rejected positions: a sub-list
      in batch order. */
  lemma {:induction false} AcceptedKeepsOrder<T>(docs: seq<T>, accepts: T -> bool)
    ensures Accepted(docs, accepts) == Unreported(docs, Rejected(docs, accepts))
    decreases |docs|
  {
    if docs != [] {
      var n := |docs| - 1;
      AcceptedKeepsOrder(docs[..n], accepts);
      forall i: nat | i < n ensures i in Rejected(docs[..n], accepts) <==> i in Rejected(docs, accepts) {
        assert docs[..n][i] == docs[i];
      }
      UnreportedAgrees(docs[..n], Rejected(docs[..n], accepts), Rejected(docs, accepts));
    }
  }

  /** A batch the validator accepts whole is its own accepted list. */
  lemma {:induction false} AcceptedAll<T>(docs: seq<T>, accepts: T -> bool)
    requires forall i :: 0 <= i < |docs| ==> accepts(docs[i])
    ensures Accepted(docs, accepts) == docs
    decreases |docs|
  {
    if docs != [] {
      var n := |docs| - 1;
      AcceptedAll(docs[..n], accepts);
      assert docs[..n] + [docs[n]] == docs;
    }
  }

  /** The batch positions the write errors report. */
  function ErrorIndexes(errors: seq<WriteError>): set<nat> {
    set i | 0 <= i < |errors| :: errors[i].index
  }

  /** Each write error reports a later document than the one before it, so no document
      is reported twice. */
  predicate IncreasingIndexes(errors: seq<WriteError>) {
    forall i, j :: 0 <= i < j < |errors| ==> errors[i].index < errors[j].index
  }

  /** Every document of a batch is accounted for exactly once: either one write error
      reports its position, or it is appended; the appended documents keep their batch
      order. */
  lemma {:induction false} InsertManyAccountsForEach<T, K>(coll: seq<T>, docs: seq<T>, key: T -> K,
                                                              accepts: T -> bool, keyPattern: set<string>)
    ensures var r := InsertMany(coll, docs, key, accepts, keyPattern);
      && IncreasingIndexes(r.writeErrors)
      && r.stored == coll + Unreported(docs, ErrorIndexes(r.writeErrors))
    decreases |docs|
  {
    if docs != [] {
      var n := |docs| - 1;
      var r := InsertMany(coll, docs, key, accepts, keyPattern);
      var prev := InsertMany(coll, docs[..n], key, accepts, keyPattern);
      InsertManyAccountsForEach(coll, docs[..n], key, accepts, keyPattern);
      ErrorsBefore(prev.writeErrors, n, docs[..n], accepts, keyPattern);
      if r.writeErrors == prev.writeErrors {
        assert r.stored == prev.stored + [docs[n]];
        assert n !in ErrorIndexes(prev.writeErrors);
        AppendAssociates(coll, Unreported(docs[..n], ErrorIndexes(prev.writeErrors)), docs[n]);
      } else {
        assert r.stored == prev.stored;
        assert r.writeErrors == prev.writeErrors + [r.writeErrors[|prev.writeErrors|]];
        ErrorIndexesSnoc(prev.writeErrors, r.writeErrors[|prev.writeErrors|], n);
        UnreportedAgrees(docs[..n], ErrorIndexes(prev.writeErrors), ErrorIndexes(r.writeErrors));
      }
    }
  }

  /** Write errors about the first `n` documents report positions below `n`. */
  lemma ErrorsBefore<T>(errors: seq<WriteError>, n: nat, docs: seq<T>, accepts: T -> bool, keyPattern: set<string>)
    requires |docs| == n
    requires forall e :: e in errors ==> WellFormedError(e, docs, accepts, keyPattern)
    ensures forall i: nat :: i in ErrorIndexes(errors) ==> i < n
  {
    forall i: nat | i in ErrorIndexes(errors) ensures i < n {
      var j :| 0 <= j < |errors| && errors[j].index == i;
      assert errors[j] in errors;
    }
  }

  /** One more write error, about position `n` past all earlier ones. */
  lemma ErrorIndexesSnoc(errors: seq<WriteError>, e: WriteError, n: nat)
    requires IncreasingIndexes(errors) && e.index == n
    requires forall i: nat :: i in ErrorIndexes(errors) ==> i < n
    ensures IncreasingIndexes(errors + [e])
    ensures ErrorIndexes(errors + [e]) == ErrorIndexes(errors) + {n}
  {
    var t := errors + [e];
    assert t[|errors|] == e;
    forall i | 0 <= i < |errors| ensures t[i].index < n {
      assert errors[i].index in ErrorIndexes(errors);
    }
    forall k | k in ErrorIndexes(errors) ensures k in ErrorIndexes(t) {
      var i :| 0 <= i < |errors| && errors[i].index == k;
      assert t[i] == errors[i];
    }
  }

  /** Re-inserting documents whose keys are all stored already changes nothing: every
      document of the batch is reported, as a validation error or as a duplicate. */
  lemma {:induction false} InsertManyAllPresent<T, K>(coll: seq<T>, docs: seq<T>, key: T -> K,
                                                          accepts: T -> bool, keyPattern: set<string>)
    requires AcceptedKeys(docs, key, accepts) <= KeySet(coll, key)
    ensures InsertMany(coll, docs, key, accepts, keyPattern).stored == coll
    ensures InsertMany(coll, docs, key, accepts, keyPattern).nInserted == 0
    decreases |docs|
  {
    if docs != [] {
      var n := |docs| - 1;
      AcceptedKeysSnoc(docs, key, accepts);
      InsertManyAllPresent(coll, docs[..n], key, accepts, keyPattern);
    }
  }

  /** Idempotence: a batch inserted a second time leaves the collection as the first
      insertion left it, and inserts nothing. */
  lemma InsertManyTwice<T, K>(coll: seq<T>, docs: seq<T>, key: T -> K,
                                  accepts: T -> bool, keyPattern: set<string>)
    ensures var once := InsertMany(coll, docs, key, accepts, keyPattern);
      var twice := InsertMany(once.stored, docs, key, accepts, keyPattern);
      twice.stored == once.stored && twice.nInserted == 0
  {
    var once := InsertMany(coll, docs, key, accepts, keyPattern);
    InsertManyAllPresent(once.stored, docs, key, accepts, keyPattern);
  }

  lemma KeySetConcat<T, K>(a: seq<T>, b: seq<T>, key: T -> K)
    ensures KeySet(a + b, key) == KeySet(a, key) + KeySet(b, key)
  {
    var t := a + b;
    forall k | k in KeySet(t, key) ensures k in KeySet(a, key) + KeySet(b, key) {
      var i :| 0 <= i < |t| && key(t[i]) == k;
      if i >= |a| { assert key(b[i - |a|]) == k; }
    }
    forall k | k in KeySet(b, key) ensures k in KeySet(t, key) {
      var i :| 0 <= i < |b| && key(b[i]) == k;
      assert key(t[i + |a|]) == k;
    }
    forall k | k in KeySet(a, key) ensures k in KeySet(t, key) {
      var i :| 0 <= i < |a| && key(a[i]) == k;
      assert key(t[i]) == k;
    }
  }

  /** Partial-failure isolation: when the valid documents of a batch have keys that are
      new and pairwise distinct, all of them are stored, in batch order, and exactly
      the rejected ones are reported. */
  lemma {:induction false} InsertManyIsolatesFailures<T, K>(coll: seq<T>, docs: seq<T>, key: T -> K,
                                                               accepts: T -> bool, keyPattern: set<string>)
    requires UniqueKeys(Accepted(docs, accepts), key)
    requires KeySet(Accepted(docs, accepts), key) !! KeySet(coll, key)
    ensures InsertMany(coll, docs, key, accepts, keyPattern).stored == coll + Accepted(docs, accepts)
    ensures InsertMany(coll, docs, key, accepts, keyPattern).nInserted == |Accepted(docs, accepts)|
    ensures |InsertMany(coll, docs, key, accepts, keyPattern).writeErrors| == |docs| - |Accepted(docs, accepts)|
    decreases |docs|
  {
    if docs != [] {
      var n := |docs| - 1;
      var d := docs[n];
      var init := Accepted(docs[..n], accepts);
      var all := Accepted(docs, accepts);
      assert all == init + (if accepts(d) then [d] else []);
      assert UniqueKeys(init, key) by {
        forall i, j | 0 <= i < j < |init| ensures key(init[i]) != key(init[j]) {
          assert init[i] == all[i] && init[j] == all[j];
        }
      }
      KeySetConcat(init, if accepts(d) then [d] else [], key);
      InsertManyIsolatesFailures(coll, docs[..n], key, accepts, keyPattern);
      if accepts(d) {
        KeySetConcat(coll, init, key);
        assert key(d) !in KeySet(init, key) by {
          forall i | 0 <= i < |init| ensures key(init[i]) != key(d) {
            assert init[i] == all[i] && d == all[|init|];
          }
        }
        assert key(d) in KeySet(all, key) by { assert all[|init|] == d; }
        AppendAssociates(coll, init, d);
      }
    }
  }

  lemma AppendAssociates<T>(a: seq<T>, b: seq<T>, x: T)
    ensures (a + b) + [x] == a + (b + [x])
  {
  }

  /** A batch the store accepts without any write error is appended whole, in batch
      order. */
  lemma {:induction false} InsertManyWithoutErrors<T, K>(coll: seq<T>, docs: seq<T>, key: T -> K,
                                                            accepts: T -> bool, keyPattern: set<string>)
    requires InsertMany(coll, docs, key, accepts, keyPattern).writeErrors == []
    ensures InsertMany(coll, docs, key, accepts, keyPattern).stored == coll + docs
    decreases |docs|
  {
    if docs != [] {
      var n := |docs| - 1;
      var stored := InsertMany(coll, docs, key, accepts, keyPattern).stored;
      var prev := InsertMany(coll, docs[..n], key, accepts, keyPattern).stored;
      assert stored == prev + [docs[n]] && prev == coll + docs[..n] by {
        InsertManyLastWithoutErrors(coll, docs, key, accepts, keyPattern);
        InsertManyWithoutErrors(coll, docs[..n], key, accepts, keyPattern);
      }
      AppendLast(coll, docs);
    }
  }

  lemma AppendLast<T>(a: seq<T>, s: seq<T>)
    requires s != []
    ensures (a + s[..|s| - 1]) + [s[|s| - 1]] == a + s
  {
    assert s[..|s| - 1] + [s[|s| - 1]] == s;
  }

  /** The store reports no write error exactly when every document passes validation
      and the batch's keys are pairwise distinct and not stored yet. */
  lemma InsertManyErrorFree<T, K>(coll: seq<T>, docs: seq<T>, key: T -> K,
                                  accepts: T -> bool, keyPattern: set<string>)
    ensures InsertMany(coll, docs, key, accepts, keyPattern).writeErrors == [] <==> FreshBatch(coll, docs, key, accepts)
  {
    if InsertMany(coll, docs, key, accepts, keyPattern).writeErrors == [] {
      NoErrorsFreshKeys(coll, docs, key, accepts, keyPattern);
    } else if forall i :: 0 <= i < |docs| ==> accepts(docs[i]) {
      AcceptedAll(docs, accepts);
      if UniqueKeys(docs, key) && KeySet(docs, key) !! KeySet(coll, key) {
        InsertManyIsolatesFailures(coll, docs, key, accepts, keyPattern);
        assert false;
      }
    }
  }

  lemma {:induction false} NoErrorsFreshKeys<T, K>(coll: seq<T>, docs: seq<T>, key: T -> K,
                                                      accepts: T -> bool, keyPattern: set<string>)
    requires InsertMany(coll, docs, key, accepts, keyPattern).writeErrors == []
    ensures FreshBatch(coll, docs, key, accepts)
    decreases |docs|
  {
    if docs == [] {
      assert KeySet(docs, key) == {};
    } else {
      var n := |docs| - 1;
      LastWithoutErrorsIsFresh(coll, docs, key, accepts, keyPattern);
      NoErrorsFreshKeys(coll, docs[..n], key, accepts, keyPattern);
      FreshSnoc(coll, docs[..n], docs[n], key, accepts);
      assert docs[..n] + [docs[n]] == docs;
    }
  }

  /** Every document passes validation, and the keys are distinct and not in `coll`. */
  predicate FreshBatch<T, K(==)>(coll: seq<T>, docs: seq<T>, key: T -> K, accepts: T -> bool) {
    && (forall i :: 0 <= i < |docs| ==> accepts(docs[i]))
    && UniqueKeys(docs, key)
    && KeySet(docs, key) !! KeySet(coll, key)
  }

  lemma LastWithoutErrorsIsFresh<T, K>(coll: seq<T>, docs: seq<T>, key: T -> K,
                                       accepts: T -> bool, keyPattern: set<string>)
    requires docs != []
    requires InsertMany(coll, docs, key, accepts, keyPattern).writeErrors == []
    ensures var n := |docs| - 1;
      && InsertMany(coll, docs[..n], key, accepts, keyPattern).writeErrors == []
      && accepts(docs[n]) && key(docs[n]) !in KeySet(coll + docs[..n], key)
  {
    var n := |docs| - 1;
    InsertManyLastWithoutErrors(coll, docs, key, accepts, keyPattern);
    InsertManyWithoutErrors(coll, docs[..n], key, accepts, keyPattern);
  }

  lemma FreshSnoc<T, K>(coll: seq<T>, init: seq<T>, d: T, key: T -> K, accepts: T -> bool)
    requires FreshBatch(coll, init, key, accepts)
    requires accepts(d) && key(d) !in KeySet(coll + init, key)
    ensures FreshBatch(coll, init + [d], key, accepts)
  {
    var docs := init + [d];
    KeySetConcat(coll, init, key);
    KeySetSnoc(init, d, key);
    forall i, j | 0 <= i < j < |docs| ensures key(docs[i]) != key(docs[j]) {
      if j == |init| {
        assert key(init[i]) in KeySet(init, key);
      }
    }
  }

  /** The last document of a batch adds a validation error when it is rejected, and
      otherwise at most a duplicate-key error. */
  lemma InsertManyLastError<T, K>(coll: seq<T>, docs: seq<T>, key: T -> K,
                                  accepts: T -> bool, keyPattern: set<string>)
    requires docs != []
    ensures var n := |docs| - 1;
      var errors := InsertMany(coll, docs, key, accepts, keyPattern).writeErrors;
      var prev := InsertMany(coll, docs[..n], key, accepts, keyPattern).writeErrors;
      if accepts(docs[n]) then
        errors == prev || errors == prev + [WriteError(n, DUPLICATE_KEY_ERROR, keyPattern)]
      else
        errors == prev + [WriteError(n, DOCUMENT_VALIDATION_FAILURE_ERROR, {})]
  {
  }

  /** Without write errors, the last document was appended to what the rest left. */
  lemma InsertManyLastWithoutErrors<T, K>(coll: seq<T>, docs: seq<T>, key: T -> K,
                                          accepts: T -> bool, keyPattern: set<string>)
    requires docs != []
    requires InsertMany(coll, docs, key, accepts, keyPattern).writeErrors == []
    ensures var n := |docs| - 1;
      var prev := InsertMany(coll, docs[..n], key, accepts, keyPattern);
      && prev.writeErrors == []
      && InsertMany(coll, docs, key, accepts, keyPattern).stored == prev.stored + [docs[n]]
  {
  }
}
