/**
 * The two bulk handlers of the CRUD example as folds over their input
 * array: POST /productos/bulk creates one record per valid item and
 * collects an error per invalid one; DELETE /productos splices out, id by
 * id, the first record holding each id. CatalogStore runs the same steps
 * in its loops.
 */
module CatalogBulk {
  import opened Optional
  import opened Catalog

  // ---------------------------------------------------------------------
  // POST /productos/bulk
  // ---------------------------------------------------------------------

  /** One entry of `errores_detalle`. */
  datatype BulkError = BulkError(index: int, error: string)

  /** What the `forEach` over the items has built so far, and the id counter. */
  datatype BulkRun = BulkRun(created: seq<Product>, errors: seq<BulkError>, next: int)

  const BulkMissingMessage: string := "Nombre y precio requeridos"
  /** The message of the TypeError thrown by `productoData.nombre.trim()` on a non-string name. */
  const BulkTrimTypeError: string := "productoData.nombre.trim is not a function"

  /** The per-item guard `!productoData.nombre || !productoData.precio`: no price check beyond zero. */
  predicate BulkRejects(item: ProductInput) {
    !Truthy(item.nombre) || item.precio.None? || item.precio.value == 0.0
  }

  /** The item ends up in `errores_detalle`: rejected by the guard, or its name cannot be trimmed. */
  predicate BulkFails(item: ProductInput) {
    BulkRejects(item) || !item.nombre.Str?
  }

  /**
   * The body of the `forEach` callback for item `index`. An item past the
   * guard takes an id before its name is trimmed, so an item whose name is
   * not a string uses up an id without creating anything.
   */
  function BulkCreateStep(run: BulkRun, index: int, item: ProductInput, now: Timestamp): BulkRun {
    if BulkRejects(item) then
      run.(errors := run.errors + [BulkError(index, BulkMissingMessage)])
    else if !item.nombre.Str? then
      run.(errors := run.errors + [BulkError(index, BulkTrimTypeError)], next := run.next + 1)
    else
      run.(created := run.created + [NewProduct(run.next, item, now)], next := run.next + 1)
  }

  /** The callback run over every item in order, with the counter starting at `next`. */
  function BulkCreateRun(items: seq<ProductInput>, next: int, now: Timestamp): BulkRun
    decreases |items|
  {
    if |items| == 0 then BulkRun([], [], next)
    else
      var last := |items| - 1;
      BulkCreateStep(BulkCreateRun(items[..last], next, now), last, items[last], now)
  }

  /** The indices that `errores_detalle` names, in order. */
  function ErrorIndices(errors: seq<BulkError>): (r: seq<int>)
    ensures |r| == |errors|
    ensures forall k :: 0 <= k < |errors| ==> r[k] == errors[k].index
  {
    seq(|errors|, k requires 0 <= k < |errors| => errors[k].index)
  }

  /** The message recorded for a failing item. */
  function BulkMessage(item: ProductInput): string {
    if BulkRejects(item) then BulkMissingMessage else BulkTrimTypeError
  }

  /**
   * Every item is either created or reported, and the created records
   * carry strictly increasing ids from the counter's range; the counter
   * advances by at most one per item.
   */
  lemma {:induction false} BulkCreateIds(items: seq<ProductInput>, next: int, now: Timestamp)
    ensures var r := BulkCreateRun(items, next, now);
      && |r.created| + |r.errors| == |items|
      && next + |r.created| <= r.next <= next + |items|
      && (forall k :: 0 <= k < |r.created| ==> next <= r.created[k].id < r.next)
      && (forall j, k :: 0 <= j < k < |r.created| ==> r.created[j].id < r.created[k].id)
    decreases |items|
  {
    if |items| > 0 {
      BulkCreateIds(items[..|items| - 1], next, now);
    }
  }

  /** The error list after one more item: one entry for it exactly when it fails. */
  lemma ErrorsSnoc(items: seq<ProductInput>, next: int, now: Timestamp)
    requires |items| > 0
    ensures var last := |items| - 1;
      BulkCreateRun(items, next, now).errors == BulkCreateRun(items[..last], next, now).errors +
        (if BulkFails(items[last]) then [BulkError(last, BulkMessage(items[last]))] else [])
  {
  }

  lemma ErrorIndicesAppend(a: seq<BulkError>, b: seq<BulkError>)
    ensures ErrorIndices(a + b) == ErrorIndices(a) + ErrorIndices(b)
  {
    assert forall k :: 0 <= k < |a| ==> (a + b)[k] == a[k];
  }

  /**
   * Every entry of the error list names a failing item, with the message of
   * the check it failed, and the entries come in increasing index order.
   */
  lemma {:induction false} BulkErrorsSound(items: seq<ProductInput>, next: int, now: Timestamp)
    ensures var r := BulkCreateRun(items, next, now);
      && (forall k :: 0 <= k < |r.errors| ==>
            0 <= r.errors[k].index < |items| && BulkFails(items[r.errors[k].index])
            && r.errors[k].error == BulkMessage(items[r.errors[k].index]))
      && (forall j, k :: 0 <= j < k < |r.errors| ==> r.errors[j].index < r.errors[k].index)
    decreases |items|
  {
    if |items| > 0 {
      var last := |items| - 1;
      var init := items[..last];
      BulkErrorsSound(init, next, now);
      ErrorsSnoc(items, next, now);
      var errors0 := BulkCreateRun(init, next, now).errors;
      var errors := BulkCreateRun(items, next, now).errors;
      forall k | 0 <= k < |errors|
        ensures 0 <= errors[k].index < |items| && BulkFails(items[errors[k].index])
        ensures errors[k].error == BulkMessage(items[errors[k].index])
      {
        if k < |errors0| {
          assert errors[k] == errors0[k];
          assert items[errors0[k].index] == init[errors0[k].index];
        }
      }
      forall j, k | 0 <= j < k < |errors| ensures errors[j].index < errors[k].index {
        assert errors[j] == errors0[j];
        if k < |errors0| {
          assert errors[k] == errors0[k];
        }
      }
    }
  }

  /** An item is named in the error list exactly when it fails. */
  lemma {:induction false} BulkErrorsComplete(items: seq<ProductInput>, next: int, now: Timestamp)
    ensures var r := BulkCreateRun(items, next, now);
      forall i :: 0 <= i < |items| ==> (i in ErrorIndices(r.errors) <==> BulkFails(items[i]))
    decreases |items|
  {
    if |items| > 0 {
      var last := |items| - 1;
      var init := items[..last];
      BulkErrorsComplete(init, next, now);
      BulkErrorsSound(init, next, now);
      ErrorsSnoc(items, next, now);
      var errors0 := BulkCreateRun(init, next, now).errors;
      var added := if BulkFails(items[last]) then [BulkError(last, BulkMessage(items[last]))] else [];
      var e0 := ErrorIndices(errors0);
      ErrorIndicesAppend(errors0, added);
      assert ErrorIndices(added) == if BulkFails(items[last]) then [last] else [];
      assert last !in e0;
      var e := ErrorIndices(BulkCreateRun(items, next, now).errors);
      assert e == e0 + ErrorIndices(added);
      forall i | 0 <= i < |items| ensures i in e <==> BulkFails(items[i]) {
        if i < last {
          assert items[i] == init[i];
        }
      }
    }
  }

  /**
   * An independent account of the created records, reading the items from
   * the front: skip what the guard rejects, burn an id on a name that is
   * not a string, build a record otherwise.
   */
  function CreatedFrom(items: seq<ProductInput>, next: int, now: Timestamp): seq<Product>
    decreases |items|
  {
    if |items| == 0 then []
    else
      var h := items[0];
      if BulkRejects(h) then CreatedFrom(items[1..], next, now)
      else if !h.nombre.Str? then CreatedFrom(items[1..], next + 1, now)
      else [NewProduct(next, h, now)] + CreatedFrom(items[1..], next + 1, now)
  }

  /** The ids a run of the items uses up, read from the front. */
  function IdsUsed(items: seq<ProductInput>): (r: nat)
    ensures r <= |items|
    decreases |items|
  {
    if |items| == 0 then 0
    else (if BulkRejects(items[0]) then 0 else 1) + IdsUsed(items[1..])
  }

  /** Processing the items after a first batch continues where the first batch left off. */
  lemma {:induction false} BulkCreateSplit(a: seq<ProductInput>, b: seq<ProductInput>, next: int, now: Timestamp)
    ensures var ra := BulkCreateRun(a, next, now);
      var rb := BulkCreateRun(b, ra.next, now);
      && BulkCreateRun(a + b, next, now).created == ra.created + rb.created
      && BulkCreateRun(a + b, next, now).next == rb.next
    decreases |b|
  {
    if |b| > 0 {
      var last := |b| - 1;
      assert (a + b)[..|a| + last] == a + b[..last];
      assert (a + b)[|a| + last] == b[last];
      BulkCreateSplit(a, b[..last], next, now);
    } else {
      assert a + b == a;
    }
  }

  /**
   * The fold the handler runs agrees with the front-to-back reading: the
   * same records are created and the counter advances by one per item past
   * the guard.
   */
  lemma {:induction false} BulkCreateMatchesReference(items: seq<ProductInput>, next: int, now: Timestamp)
    ensures BulkCreateRun(items, next, now).created == CreatedFrom(items, next, now)
    ensures BulkCreateRun(items, next, now).next == next + IdsUsed(items)
    decreases |items|
  {
    if |items| > 0 {
      var h := items[0];
      assert items == [h] + items[1..];
      BulkCreateSplit([h], items[1..], next, now);
      SingleItemRun(h, next, now);
      BulkCreateMatchesReference(items[1..], BulkCreateRun([h], next, now).next, now);
    }
  }

  /** A run over one item. */
  lemma SingleItemRun(h: ProductInput, next: int, now: Timestamp)
    ensures BulkCreateRun([h], next, now).created ==
      if BulkRejects(h) || !h.nombre.Str? then [] else [NewProduct(next, h, now)]
    ensures BulkCreateRun([h], next, now).next == next + (if BulkRejects(h) then 0 else 1)
  {
    assert [h][..0] == [];
  }

  /** One more item extends the run by one step. */
  lemma BulkCreateRunSnoc(items: seq<ProductInput>, i: int, next: int, now: Timestamp)
    requires 0 <= i < |items|
    ensures BulkCreateRun(items[..i + 1], next, now) ==
      BulkCreateStep(BulkCreateRun(items[..i], next, now), i, items[i], now)
  {
    assert items[..i + 1][..i] == items[..i];
  }

  // ---------------------------------------------------------------------
  // DELETE /productos
  // ---------------------------------------------------------------------

  /** The collection and the two result arrays as the `forEach` over the ids leaves them. */
  datatype DeleteRun = DeleteRun(remaining: seq<Product>, eliminados: seq<Product>, noEncontrados: seq<int>)

  /** One id: splice out the first record holding it, or report it as not found. */
  function BulkDeleteStep(run: DeleteRun, id: int): DeleteRun {
    var i := FindIndex(run.remaining, id);
    if i == -1 then run.(noEncontrados := run.noEncontrados + [id])
    else DeleteRun(RemoveFirst(run.remaining, id), run.eliminados + [run.remaining[i]], run.noEncontrados)
  }

  /** The callback run over every id in order. */
  function BulkDeleteRun(ps: seq<Product>, ids: seq<int>): DeleteRun
    decreases |ids|
  {
    if |ids| == 0 then DeleteRun(ps, [], [])
    else BulkDeleteStep(BulkDeleteRun(ps, ids[..|ids| - 1]), ids[|ids| - 1])
  }

  /** The filter that keeps products whose id is not among `ids`. */
  function KeepsUnlisted(ids: seq<int>): Product -> bool {
    (p: Product) => p.id !in ids
  }

  /** The filter that keeps products whose id is not `id`. */
  function KeepsOther(id: int): Product -> bool {
    (p: Product) => p.id != id
  }

  /**
   * Nothing is lost or duplicated: the remaining and the deleted records
   * together are the original collection, every id is either deleted or
   * reported, every deleted record carries a requested id, and every
   * reported id was requested.
   */
  lemma {:induction false} BulkDeleteConserves(ps: seq<Product>, ids: seq<int>)
    ensures var r := BulkDeleteRun(ps, ids);
      && multiset(r.remaining) + multiset(r.eliminados) == multiset(ps)
      && |r.eliminados| + |r.noEncontrados| == |ids|
      && (forall k :: 0 <= k < |r.eliminados| ==> r.eliminados[k].id in ids)
      && (forall k :: 0 <= k < |r.noEncontrados| ==> r.noEncontrados[k] in ids)
    decreases |ids|
  {
    if |ids| > 0 {
      var init := ids[..|ids| - 1];
      BulkDeleteConserves(ps, init);
      var id := ids[|ids| - 1];
      var r0 := BulkDeleteRun(ps, init);
      var r := BulkDeleteRun(ps, ids);
      assert r == BulkDeleteStep(r0, id);
      BulkDeleteStepConserves(r0, id);
      forall k | 0 <= k < |init| ensures init[k] in ids {
        assert init[k] == ids[k];
      }
      forall k | 0 <= k < |r.eliminados| ensures r.eliminados[k].id in ids {
        if k < |r0.eliminados| && r.eliminados[k] == r0.eliminados[k] {
          assert r0.eliminados[k].id in init;
        }
      }
      forall k | 0 <= k < |r.noEncontrados| ensures r.noEncontrados[k] in ids {
        if k < |r0.noEncontrados| && r.noEncontrados[k] == r0.noEncontrados[k] {
          assert r0.noEncontrados[k] in init;
        }
      }
    }
  }

  /**
   * One id moves at most one record from the collection to the deleted
   * list, and adds one entry to exactly one of the two result lists.
   */
  lemma BulkDeleteStepConserves(run: DeleteRun, id: int)
    ensures var r := BulkDeleteStep(run, id);
      && multiset(r.remaining) + multiset(r.eliminados) == multiset(run.remaining) + multiset(run.eliminados)
      && |r.eliminados| + |r.noEncontrados| == |run.eliminados| + |run.noEncontrados| + 1
      && (forall k :: 0 <= k < |r.eliminados| ==>
            (k < |run.eliminados| && r.eliminados[k] == run.eliminados[k]) || r.eliminados[k].id == id)
      && (forall k :: 0 <= k < |r.noEncontrados| ==>
            (k < |run.noEncontrados| && r.noEncontrados[k] == run.noEncontrados[k]) || r.noEncontrados[k] == id)
  {
    var i := FindIndex(run.remaining, id);
    if i != -1 {
      RemoveAtMultiset(run.remaining, i);
    }
  }

  /** Splicing out one record loses that record and nothing else. */
  lemma RemoveAtMultiset(s: seq<Product>, i: int)
    requires 0 <= i < |s|
    ensures multiset(RemoveAt(s, i)) + multiset{s[i]} == multiset(s)
  {
    assert s == s[..i] + [s[i]] + s[i + 1..];
  }

  /** The ids of a list of records, in order. */
  function IdsOf(ps: seq<Product>): (r: seq<int>)
    ensures |r| == |ps|
    ensures forall k :: 0 <= k < |ps| ==> r[k] == ps[k].id
  {
    seq(|ps|, k requires 0 <= k < |ps| => ps[k].id)
  }

  /**
   * Every requested id lands in exactly one of the two result lists, as
   * often as it was requested: the ids of the deleted records and the ids
   * not found together are the request. An id no stored record carries is
   * always reported as not found.
   */
  lemma {:induction false} BulkDeletePartition(ps: seq<Product>, ids: seq<int>)
    ensures var r := BulkDeleteRun(ps, ids);
      && multiset(IdsOf(r.eliminados)) + multiset(r.noEncontrados) == multiset(ids)
      && (forall x :: x in ids && !HasId(ps, x) ==> x in r.noEncontrados)
    decreases |ids|
  {
    if |ids| > 0 {
      var id := ids[|ids| - 1];
      var init := ids[..|ids| - 1];
      assert ids == init + [id];
      BulkDeletePartition(ps, init);
      BulkDeleteConserves(ps, init);
      var r0 := BulkDeleteRun(ps, init);
      var r := BulkDeleteRun(ps, ids);
      assert r == BulkDeleteStep(r0, id);
      var i := FindIndex(r0.remaining, id);
      if i != -1 {
        var p := r0.remaining[i];
        assert r.eliminados == r0.eliminados + [p];
        assert IdsOf(r.eliminados) == IdsOf(r0.eliminados) + [id];
        assert r.noEncontrados == r0.noEncontrados;
        assert multiset(ps)[p] >= multiset(r0.remaining)[p] > 0;
        StoredHasId(ps, p);
      } else {
        assert r.eliminados == r0.eliminados;
        assert r.noEncontrados == r0.noEncontrados + [id];
      }
      assert HasId(ps, id) || id in r.noEncontrados;
      forall x | x in ids && !HasId(ps, x) ensures x in r.noEncontrados {
        if x in init {
          assert x in r0.noEncontrados;
        }
      }
    }
  }

  lemma StoredHasId(ps: seq<Product>, p: Product)
    requires p in ps
    ensures HasId(ps, p.id)
  {
    var k :| 0 <= k < |ps| && ps[k] == p;
  }

  /** The collection after splicing out the first record holding `id`, if any. */
  function RemoveFirst(s: seq<Product>, id: int): seq<Product> {
    var i := FindIndex(s, id);
    if i == -1 then s else RemoveAt(s, i)
  }

  /** Removing the first record with `id` from a collection with unique ids drops exactly that id. */
  lemma {:induction false} RemoveFirstIsFilter(s: seq<Product>, id: int)
    requires UniqueIds(s)
    ensures RemoveFirst(s, id) == Filter(s, KeepsOther(id))
    decreases |s|
  {
    if |s| > 0 {
      if s[0].id == id {
        RemoveFirstAtHead(s);
      } else {
        RemoveFirstIsFilter(s[1..], id);
        RemoveFirstPastHead(s, id);
        FilterCons(s, KeepsOther(id));
      }
    }
  }

  lemma {:induction false} RemoveFirstAtHead(s: seq<Product>)
    requires |s| > 0 && UniqueIds(s)
    ensures RemoveFirst(s, s[0].id) == Filter(s, KeepsOther(s[0].id))
  {
    var f := KeepsOther(s[0].id);
    FilterCons(s, f);
    HeadIdAbsentFromTail(s);
    FilterKeepsEvery(s[1..], f);
    assert FindIndex(s, s[0].id) == 0;
    RemoveHead(s);
  }

  lemma {:induction false} RemoveFirstPastHead(s: seq<Product>, id: int)
    requires |s| > 0 && s[0].id != id
    ensures RemoveFirst(s, id) == [s[0]] + RemoveFirst(s[1..], id)
  {
    FindIndexPastHead(s, id);
    if FindIndex(s[1..], id) != -1 {
      RemoveFoundPastHead(s, id);
    } else {
      RemoveMissingPastHead(s, id);
    }
  }

  lemma {:induction false} RemoveFoundPastHead(s: seq<Product>, id: int)
    requires |s| > 0 && FindIndex(s[1..], id) != -1
    requires FindIndex(s, id) == FindIndex(s[1..], id) + 1
    ensures RemoveFirst(s, id) == [s[0]] + RemoveFirst(s[1..], id)
  {
    var j := FindIndex(s[1..], id);
    RemoveAfterHead(s, j);
  }

  lemma {:induction false} RemoveMissingPastHead(s: seq<Product>, id: int)
    requires |s| > 0 && FindIndex(s[1..], id) == -1 && FindIndex(s, id) == -1
    ensures RemoveFirst(s, id) == [s[0]] + RemoveFirst(s[1..], id)
  {
    assert s == [s[0]] + s[1..];
  }

  lemma {:induction false} FindIndexPastHead(s: seq<Product>, id: int)
    requires |s| > 0 && s[0].id != id
    ensures var j := FindIndex(s[1..], id);
      FindIndex(s, id) == if j == -1 then -1 else j + 1
  {
  }

  /** One step of `Filter`. */
  lemma {:induction false} FilterCons(s: seq<Product>, f: Product -> bool)
    requires |s| > 0
    ensures Filter(s, f) == if f(s[0]) then [s[0]] + Filter(s[1..], f) else Filter(s[1..], f)
  {
  }

  lemma {:induction false} RemoveHead(s: seq<Product>)
    requires |s| > 0
    ensures RemoveAt(s, 0) == s[1..]
  {
  }

  lemma {:induction false} RemoveAfterHead(s: seq<Product>, j: int)
    requires 0 <= j < |s| - 1
    ensures RemoveAt(s, j + 1) == [s[0]] + RemoveAt(s[1..], j)
  {
    var t := s[1..];
    assert s[..j + 1] == [s[0]] + t[..j];
    assert s[j + 2..] == t[j + 1..];
  }

  lemma {:induction false} HeadIdAbsentFromTail(s: seq<Product>)
    requires |s| > 0 && UniqueIds(s)
    ensures forall k :: 0 <= k < |s| - 1 ==> KeepsOther(s[0].id)(s[1..][k])
  {
    var t := s[1..];
    forall k | 0 <= k < |t| ensures KeepsOther(s[0].id)(t[k]) {
      assert t[k].id != s[0].id;
    }
  }

  /** Filtering keeps ids unique. */
  lemma {:induction false} FilterKeepsUnique(s: seq<Product>, f: Product -> bool)
    requires UniqueIds(s)
    ensures UniqueIds(Filter(s, f))
    decreases |s|
  {
    if |s| > 0 {
      var t := s[1..];
      FilterKeepsUnique(t, f);
      var rest := Filter(t, f);
      if f(s[0]) {
        var r := [s[0]] + rest;
        assert r[1..] == rest;
        forall k | 0 <= k < |rest| ensures rest[k].id != s[0].id {
          var m :| 0 <= m < |t| && t[m] == rest[k];
        }
      }
    }
  }

  /**
   * On a collection with unique ids, the records left after a bulk delete
   * are exactly those whose id was not requested, in their original order,
   * and a record is deleted exactly when it was in the collection and its
   * id was requested.
   */
  lemma BulkDeleteRemovesListed(ps: seq<Product>, ids: seq<int>)
    requires UniqueIds(ps)
    ensures BulkDeleteRun(ps, ids).remaining == Filter(ps, KeepsUnlisted(ids))
    ensures UniqueIds(BulkDeleteRun(ps, ids).remaining)
    ensures forall p :: p in BulkDeleteRun(ps, ids).eliminados <==> p in ps && p.id in ids
  {
    var r := BulkDeleteRun(ps, ids);
    BulkDeleteRemaining(ps, ids);
    FilterKeepsUnique(ps, KeepsUnlisted(ids));
    BulkDeleteConserves(ps, ids);
    forall p ensures p in r.eliminados <==> p in ps && p.id in ids {
      if p in ps && p.id in ids {
        assert !KeepsUnlisted(ids)(p);
        assert p !in r.remaining;
        assert multiset(ps)[p] > 0;
      }
      if p in r.eliminados {
        var k :| 0 <= k < |r.eliminados| && r.eliminados[k] == p;
        assert multiset(r.eliminados)[p] > 0;
      }
    }
  }

  /** The records left after each id in turn are the filter by all ids so far. */
  lemma {:induction false} BulkDeleteRemaining(ps: seq<Product>, ids: seq<int>)
    requires UniqueIds(ps)
    ensures BulkDeleteRun(ps, ids).remaining == Filter(ps, KeepsUnlisted(ids))
    decreases |ids|
  {
    if |ids| == 0 {
      FilterKeepsEvery(ps, KeepsUnlisted(ids));
    } else {
      var id := ids[|ids| - 1];
      var init := ids[..|ids| - 1];
      BulkDeleteRemaining(ps, init);
      FilterKeepsUnique(ps, KeepsUnlisted(init));
      var s := BulkDeleteRun(ps, init).remaining;
      RemoveFirstIsFilter(s, id);
      assert BulkDeleteRun(ps, ids).remaining == RemoveFirst(s, id);
      FilterFusion(ps, KeepsUnlisted(init), KeepsOther(id), KeepsUnlisted(ids));
    }
  }
}
