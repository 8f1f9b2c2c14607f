/**
 * The in-memory product collection of the CRUD example and the handlers
 * that change it. The module-level `productos` array and the `siguienteId`
 * counter become the two fields of `Store`; each mutating route becomes a
 * method whose result is the status and body it answers with. The read-only
 * routes are `Catalog.ListProducts` and `Catalog.GetById` applied to
 * `productos`.
 */
module CatalogStore {
  import opened Optional
  import opened Catalog
  import opened CatalogBulk

  /** The body of a 201/207 answer to a bulk create. */
  datatype BulkReport = BulkReport(procesados: int, created: seq<Product>, errors: seq<BulkError>)

  /** The body of the answer to a bulk delete. */
  datatype DeleteReport = DeleteReport(eliminados: seq<Product>, noEncontrados: seq<int>)

  const BulkItemsRequired: string := "Se requiere un array de productos"
  const BulkIdsRequired: string := "Se requiere un array de IDs"
  const NotDeletedMessage: string := "El producto no está eliminado"

  /** Every id is below `bound`. */
  predicate IdsBelow(ps: seq<Product>, bound: int) {
    forall k :: 0 <= k < |ps| ==> ps[k].id < bound
  }

  /** Every record carries the soft-delete flag and its time stamp together or not at all. */
  predicate AllConsistent(ps: seq<Product>) {
    forall k :: 0 <= k < |ps| ==> DeletionConsistent(ps[k])
  }

  /** A record built for a create has a fresh id and is consistent. */
  lemma FreshRecord(ps: seq<Product>, bound: int, p: Product)
    requires UniqueIds(ps) && IdsBelow(ps, bound) && AllConsistent(ps)
    requires p.id == bound && DeletionConsistent(p)
    ensures UniqueIds(ps + [p]) && IdsBelow(ps + [p], bound + 1) && AllConsistent(ps + [p])
  {
    UniqueAppend(ps, p);
  }

  /** Removing records keeps the collection's invariant. */
  lemma {:induction false} SubcollectionValid(ps: seq<Product>, bound: int, f: Product -> bool)
    requires UniqueIds(ps) && IdsBelow(ps, bound) && AllConsistent(ps)
    ensures var r := Filter(ps, f); UniqueIds(r) && IdsBelow(r, bound) && AllConsistent(r)
  {
    var r := Filter(ps, f);
    FilterKeepsUnique(ps, f);
    forall k | 0 <= k < |r| ensures r[k].id < bound && DeletionConsistent(r[k]) {
      var m :| 0 <= m < |ps| && ps[m] == r[k];
    }
  }

  class Store {
    /** The collection, in insertion order. */
    var productos: seq<Product>
    /** The next id a create hands out. */
    var siguienteId: int

    /**
     * Ids are unique and below the counter, so a create never reuses an
     * id; every record is consistent about its soft-delete state.
     */
    ghost predicate Valid()
      reads this
    {
      UniqueIds(productos) && IdsBelow(productos, siguienteId) && AllConsistent(productos)
    }

    /** The two seed records and the counter at 3. */
    constructor ()
      ensures Valid()
      ensures productos == Seed() && siguienteId == FirstFreeId
    {
      productos := Seed();
      siguienteId := FirstFreeId;
      new;
      assert !HasId(Seed()[1..], 1);
    }

    /**
     * POST /productos. An invalid body is refused with 400 and changes
     * nothing; a truthy name that is not a string makes `nombre.trim()`
     * throw after the id was taken; otherwise the record is appended under
     * the next id.
     */
    method Create(input: ProductInput, now: Timestamp) returns (r: Outcome<Product>)
      requires Valid()
      modifies this
      ensures Valid()
      ensures MissingNameOrPrice(input) ==>
        r == Err(400, InvalidProductMessage) && productos == old(productos) && siguienteId == old(siguienteId)
      ensures !MissingNameOrPrice(input) && !input.nombre.Str? ==>
        r == Err(500, TrimTypeError) && productos == old(productos) && siguienteId == old(siguienteId) + 1
      ensures !MissingNameOrPrice(input) && input.nombre.Str? ==>
        && r == Ok(201, NewProduct(old(siguienteId), input, now))
        && !HasId(old(productos), r.value.id)
        && productos == old(productos) + [r.value]
        && siguienteId == old(siguienteId) + 1
    {
      if MissingNameOrPrice(input) {
        return Err(400, InvalidProductMessage);
      }
      var id := siguienteId;
      siguienteId := siguienteId + 1;
      if !input.nombre.Str? {
        return Err(500, TrimTypeError);
      }
      var nuevo := NewProduct(id, input, now);
      FreshRecord(productos, id, nuevo);
      productos := productos + [nuevo];
      r := Ok(201, nuevo);
    }

    /**
     * PUT /productos/:id. 404 for an unknown id, 400 for an invalid body,
     * 500 when the name cannot be trimmed (nothing is written then), and
     * otherwise the record is replaced in place.
     */
    method Replace(id: int, input: ProductInput, now: Timestamp) returns (r: Outcome<Product>)
      requires Valid()
      modifies this
      ensures Valid() && siguienteId == old(siguienteId)
      ensures var i := FindIndex(old(productos), id);
        && (i == -1 ==> r == Err(404, NotFoundMessage) && productos == old(productos))
        && (i != -1 && MissingNameOrPrice(input) ==>
              r == Err(400, InvalidProductMessage) && productos == old(productos))
        && (i != -1 && !MissingNameOrPrice(input) && !input.nombre.Str? ==>
              r == Err(500, TrimTypeError) && productos == old(productos))
        && (i != -1 && !MissingNameOrPrice(input) && input.nombre.Str? ==>
              && r == Ok(200, Replacement(old(productos)[i], input, now))
              && productos == old(productos)[i := r.value])
    {
      var i := FindIndex(productos, id);
      if i == -1 {
        return Err(404, NotFoundMessage);
      }
      if MissingNameOrPrice(input) {
        return Err(400, InvalidProductMessage);
      }
      if !input.nombre.Str? {
        return Err(500, TrimTypeError);
      }
      var nuevo := Replacement(productos[i], input, now);
      UniqueUpdate(productos, i, nuevo);
      productos := productos[i := nuevo];
      r := Ok(200, nuevo);
    }

    /**
     * PATCH /productos/:id. 404 for an unknown id; otherwise the accepted
     * fields of the body are written over the record and the update time
     * is stamped.
     */
    method Patch(id: int, body: seq<(string, Field)>, now: Timestamp) returns (r: Outcome<Product>)
      requires Valid()
      modifies this
      ensures Valid() && siguienteId == old(siguienteId)
      ensures var i := FindIndex(old(productos), id);
        && (i == -1 ==> r == Err(404, NotFoundMessage) && productos == old(productos))
        && (i != -1 ==>
              && r == Ok(200, Patched(old(productos)[i], UpdatesOf(body), now))
              && productos == old(productos)[i := r.value])
    {
      var i := FindIndex(productos, id);
      if i == -1 {
        return Err(404, NotFoundMessage);
      }
      var actualizaciones := CollectUpdates(body);
      var producto := Patched(productos[i], actualizaciones, now);
      UniqueUpdate(productos, i, producto);
      productos := productos[i := producto];
      r := Ok(200, producto);
    }

    /**
     * DELETE /productos/:id. 404 for an unknown id; otherwise the record is
     * spliced out and answered with. Since ids are unique, that is the
     * collection without the id.
     */
    method Delete(id: int) returns (r: Outcome<Product>)
      requires Valid()
      modifies this
      ensures Valid() && siguienteId == old(siguienteId)
      ensures var i := FindIndex(old(productos), id);
        && (i == -1 ==> r == Err(404, NotFoundMessage) && productos == old(productos))
        && (i != -1 ==> r == Ok(200, old(productos)[i]) && productos == RemoveAt(old(productos), i))
      ensures productos == Filter(old(productos), KeepsOther(id))
    {
      var i := FindIndex(productos, id);
      RemoveFirstIsFilter(productos, id);
      SubcollectionValid(productos, siguienteId, KeepsOther(id));
      if i == -1 {
        return Err(404, NotFoundMessage);
      }
      var eliminado := productos[i];
      productos := RemoveAt(productos, i);
      r := Ok(200, eliminado);
    }

    /**
     * POST /productos/bulk. A missing or empty array is refused with 400;
     * otherwise each item is created or reported in turn, and the answer is
     * 207 when any item failed, 201 when none did.
     */
    method BulkCreate(items: Option<seq<ProductInput>>, now: Timestamp) returns (r: Outcome<BulkReport>)
      requires Valid()
      modifies this
      ensures Valid()
      ensures items.None? || items.value == [] ==>
        r == Err(400, BulkItemsRequired) && productos == old(productos) && siguienteId == old(siguienteId)
      ensures items.Some? && items.value != [] ==>
        var run := BulkCreateRun(items.value, old(siguienteId), now);
        && r == Ok(if |run.errors| > 0 then 207 else 201, BulkReport(|items.value|, run.created, run.errors))
        && productos == old(productos) + run.created
        && siguienteId == run.next
    {
      if items.None? || items.value == [] {
        return Err(400, BulkItemsRequired);
      }
      var data := items.value;
      ghost var start := siguienteId;
      var created: seq<Product> := [];
      var errors: seq<BulkError> := [];
      var i := 0;
      while i < |data|
        invariant 0 <= i <= |data|
        invariant BulkRun(created, errors, siguienteId) == BulkCreateRun(data[..i], start, now)
        invariant productos == old(productos) + created
        invariant Valid()
      {
        var item := data[i];
        BulkCreateRunSnoc(data, i, start, now);
        if BulkRejects(item) {
          errors := errors + [BulkError(i, BulkMissingMessage)];
        } else {
          var id := siguienteId;
          siguienteId := siguienteId + 1;
          if !item.nombre.Str? {
            errors := errors + [BulkError(i, BulkTrimTypeError)];
          } else {
            var nuevo := NewProduct(id, item, now);
            FreshRecord(productos, id, nuevo);
            productos := productos + [nuevo];
            created := created + [nuevo];
          }
        }
        i := i + 1;
      }
      assert data[..|data|] == data;
      r := Ok(if |errors| > 0 then 207 else 201, BulkReport(|data|, created, errors));
    }

    /**
     * DELETE /productos with a body of ids. A missing array is refused with
     * 400; otherwise each id in turn removes the first record holding it or
     * is reported as not found. The collection left is the old one without
     * the requested ids.
     */
    method BulkDelete(ids: Option<seq<int>>) returns (r: Outcome<DeleteReport>)
      requires Valid()
      modifies this
      ensures Valid() && siguienteId == old(siguienteId)
      ensures ids.None? ==> r == Err(400, BulkIdsRequired) && productos == old(productos)
      ensures ids.Some? ==>
        var run := BulkDeleteRun(old(productos), ids.value);
        && r == Ok(200, DeleteReport(run.eliminados, run.noEncontrados))
        && productos == run.remaining
        && productos == Filter(old(productos), KeepsUnlisted(ids.value))
    {
      if ids.None? {
        return Err(400, BulkIdsRequired);
      }
      var list := ids.value;
      ghost var start := productos;
      var eliminados: seq<Product> := [];
      var noEncontrados: seq<int> := [];
      var i := 0;
      while i < |list|
        invariant 0 <= i <= |list|
        invariant DeleteRun(productos, eliminados, noEncontrados) == BulkDeleteRun(start, list[..i])
        invariant siguienteId == old(siguienteId)
      {
        var id := list[i];
        assert list[..i + 1][..i] == list[..i] && list[..i + 1][i] == id;
        var indice := FindIndex(productos, id);
        if indice != -1 {
          eliminados := eliminados + [productos[indice]];
          productos := RemoveFirst(productos, id);
        } else {
          noEncontrados := noEncontrados + [id];
        }
        i := i + 1;
      }
      assert list[..|list|] == list;
      BulkDeleteRemovesListed(start, list);
      SubcollectionValid(start, siguienteId, KeepsUnlisted(list));
      r := Ok(200, DeleteReport(eliminados, noEncontrados));
    }

    /** PATCH /productos/:id/soft-delete: 404 for an unknown id, otherwise flag and stamp the record. */
    method SoftDelete(id: int, now: Timestamp) returns (r: Outcome<Product>)
      requires Valid()
      modifies this
      ensures Valid() && siguienteId == old(siguienteId)
      ensures var i := FindIndex(old(productos), id);
        && (i == -1 ==> r == Err(404, NotFoundMessage) && productos == old(productos))
        && (i != -1 ==>
              && r == Ok(200, SoftDeleted(old(productos)[i], now))
              && productos == old(productos)[i := r.value])
    {
      var i := FindIndex(productos, id);
      if i == -1 {
        return Err(404, NotFoundMessage);
      }
      var producto := SoftDeleted(productos[i], now);
      UniqueUpdate(productos, i, producto);
      productos := productos[i := producto];
      r := Ok(200, producto);
    }

    /**
     * PATCH /productos/:id/restore: 404 for an unknown id, 400 for a record
     * that is not soft-deleted, otherwise drop the flag and its stamp.
     */
    method Restore(id: int) returns (r: Outcome<Product>)
      requires Valid()
      modifies this
      ensures Valid() && siguienteId == old(siguienteId)
      ensures var i := FindIndex(old(productos), id);
        && (i == -1 ==> r == Err(404, NotFoundMessage) && productos == old(productos))
        && (i != -1 && !old(productos)[i].eliminado ==>
              r == Err(400, NotDeletedMessage) && productos == old(productos))
        && (i != -1 && old(productos)[i].eliminado ==>
              && r == Ok(200, Restored(old(productos)[i]))
              && productos == old(productos)[i := r.value])
    {
      var i := FindIndex(productos, id);
      if i == -1 {
        return Err(404, NotFoundMessage);
      }
      if !productos[i].eliminado {
        return Err(400, NotDeletedMessage);
      }
      var producto := Restored(productos[i]);
      UniqueUpdate(productos, i, producto);
      productos := productos[i := producto];
      r := Ok(200, producto);
    }
  }
}
