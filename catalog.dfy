/**
 * The product records of the CRUD example and the handlers over them that
 * only read: lookup by id and the filtered, paginated listing. Also the
 * record-level pieces the mutating handlers of CatalogStore are built from:
 * input validation, construction of new and replacing records, and the
 * field updates of a partial update.
 */
module Catalog {
  import opened Optional

  /** An ISO-8601 time stamp; the clock is a parameter of every handler that reads it. */
  type Timestamp = string

  /**
   * One product of the in-memory collection. `eliminado` is false when the
   * record has no such property; the three time stamps are absent on the
   * seed records.
   */
  datatype Product = Product(
    id: int,
    nombre: string,
    precio: real,
    categoria: string,
    stock: real,
    fechaCreacion: Option<Timestamp>,
    fechaActualizacion: Option<Timestamp>,
    eliminado: bool,
    fechaEliminacion: Option<Timestamp>)

  /** The two records the collection starts with. */
  function Seed(): seq<Product> {
    [ Product(1, "Laptop", 1000.0, "Electrónica", 5.0, None, None, false, None),
      Product(2, "Mouse", 25.0, "Accesorios", 10.0, None, None, false, None) ]
  }

  /** The first identifier handed out by a create. */
  const FirstFreeId: int := 3

  /** A handler's reply: a status code and either a value or an error message. */
  datatype Outcome<T> = Ok(status: int, value: T) | Err(status: int, message: string)

  const InvalidProductMessage: string := "Nombre y precio válido son requeridos"
  const NotFoundMessage: string := "Producto no encontrado"
  /** The message of the TypeError thrown by `nombre.trim()` when the name is not a string. */
  const TrimTypeError: string := "nombre.trim is not a function"

  // ---------------------------------------------------------------------
  // Request values
  // ---------------------------------------------------------------------

  /** A value of a parsed JSON request body, as far as `typeof` and truthiness tell them apart. */
  datatype Field = Absent | Null | Str(s: string) | Num(n: real) | Bool(b: bool) | Composite

  /** JavaScript truthiness (NaN is not modelled). */
  predicate Truthy(f: Field) {
    match f
    case Str(s) => s != ""
    case Num(n) => n != 0.0
    case Bool(b) => b
    case Composite => true
    case _ => false
  }

  /**
   * The body of a create, a full replace or one item of a bulk create.
   * `precio` is the number `parseFloat` yields and `stock` the integer
   * `parseInt` yields (None when absent or not a number).
   */
  datatype ProductInput = ProductInput(
    nombre: Field,
    precio: Option<real>,
    categoria: Option<string>,
    stock: Option<int>)

  /** The guard of create and full replace: `!nombre || !precio || precio <= 0`. */
  predicate MissingNameOrPrice(input: ProductInput) {
    !Truthy(input.nombre) || input.precio.None? || input.precio.value <= 0.0
  }

  /** `categoria || 'General'`. */
  function CategoryOrDefault(c: Option<string>): (r: string)
    ensures c.Some? && c.value != "" ==> r == c.value
    ensures c.None? || c.value == "" ==> r == "General"
    ensures r != ""
  {
    if c.Some? && c.value != "" then c.value else "General"
  }

  /** `parseInt(stock) || 0`. */
  function StockOrZero(s: Option<int>): (r: real)
    ensures s.Some? ==> r == s.value as real
    ensures s.None? ==> r == 0.0
  {
    if s.Some? then s.value as real else 0.0
  }

  // ---------------------------------------------------------------------
  // String.prototype.trim over ASCII white space
  // ---------------------------------------------------------------------

  predicate IsSpace(c: char) {
    c == ' ' || c == '\t' || c == '\n' || c == '\r' || c == '\U{0B}' || c == '\U{0C}'
  }

  function TrimStart(s: string): string {
    if |s| > 0 && IsSpace(s[0]) then TrimStart(s[1..]) else s
  }

  function TrimEnd(s: string): string {
    if |s| > 0 && IsSpace(s[|s| - 1]) then TrimEnd(s[..|s| - 1]) else s
  }

  /** The string without leading and trailing white space. */
  function Trim(s: string): string {
    TrimEnd(TrimStart(s))
  }

  lemma {:induction false} TrimStartSpec(s: string)
    ensures var r := TrimStart(s);
      && |r| <= |s| && r == s[|s| - |r|..]
      && (forall k :: 0 <= k < |s| - |r| ==> IsSpace(s[k]))
      && (r == [] || !IsSpace(r[0]))
    decreases |s|
  {
    if |s| > 0 && IsSpace(s[0]) {
      TrimStartSpec(s[1..]);
    }
  }

  lemma {:induction false} TrimEndSpec(s: string)
    ensures var r := TrimEnd(s);
      && |r| <= |s| && r == s[..|r|]
      && (forall k :: |r| <= k < |s| ==> IsSpace(s[k]))
      && (r == [] || !IsSpace(r[|r| - 1]))
    decreases |s|
  {
    if |s| > 0 && IsSpace(s[|s| - 1]) {
      TrimEndSpec(s[..|s| - 1]);
    }
  }

  /**
   * `Trim(s)` is the slice of `s` left after dropping white space at both
   * ends: it neither starts nor ends with white space, and everything
   * dropped is white space.
   */
  lemma TrimSpec(s: string)
    ensures var r, i := Trim(s), |s| - |TrimStart(s)|;
      && (r == [] || (!IsSpace(r[0]) && !IsSpace(r[|r| - 1])))
      && 0 <= i && i + |r| <= |s| && r == s[i..i + |r|]
      && (forall k :: 0 <= k < i ==> IsSpace(s[k]))
      && (forall k :: i + |r| <= k < |s| ==> IsSpace(s[k]))
  {
    var t := TrimStart(s);
    var r := TrimEnd(t);
    TrimStartSpec(s);
    TrimEndSpec(t);
    var i := |s| - |t|;
    assert t == s[i..];
    assert r == s[i..i + |r|];
    forall k | i + |r| <= k < |s| ensures IsSpace(s[k]) {
      assert s[k] == t[k - i];
    }
    assert r != [] ==> r[0] == t[0];
  }

  /** Trimming twice is trimming once. */
  lemma TrimIdempotent(s: string)
    ensures Trim(Trim(s)) == Trim(s)
  {
    var r := Trim(s);
    TrimSpec(s);
    if r != [] {
      assert TrimStart(r) == r;
      assert TrimEnd(r) == r;
    }
  }

  /** A record built from a validated input: the body of `nuevoProducto`. */
  function NewProduct(id: int, input: ProductInput, now: Timestamp): (r: Product)
    requires input.nombre.Str? && input.precio.Some?
    ensures r.id == id && r.fechaCreacion == Some(now) && r.fechaActualizacion == None
    ensures !r.eliminado && DeletionConsistent(r)
    ensures r.nombre == Trim(input.nombre.s) && r.precio == input.precio.value
    ensures r.nombre == [] || (!IsSpace(r.nombre[0]) && !IsSpace(r.nombre[|r.nombre| - 1]))
    ensures r.categoria == CategoryOrDefault(input.categoria) && r.categoria != ""
    ensures r.stock == StockOrZero(input.stock)
  {
    TrimSpec(input.nombre.s);
    Product(id, Trim(input.nombre.s), input.precio.value, CategoryOrDefault(input.categoria),
            StockOrZero(input.stock), Some(now), None, false, None)
  }

  /**
   * The record a full replace writes over `old`: a fresh object literal, so
   * the soft-delete marker is dropped, while id and creation stamp are kept.
   */
  function Replacement(current: Product, input: ProductInput, now: Timestamp): (r: Product)
    requires input.nombre.Str? && input.precio.Some?
    ensures r.id == current.id && r.fechaCreacion == current.fechaCreacion
    ensures r.fechaActualizacion == Some(now)
    ensures !r.eliminado && DeletionConsistent(r)
    ensures r.nombre == NewProduct(r.id, input, now).nombre && r.precio == NewProduct(r.id, input, now).precio
    ensures r.categoria == NewProduct(r.id, input, now).categoria && r.stock == NewProduct(r.id, input, now).stock
  {
    Product(current.id, Trim(input.nombre.s), input.precio.value, CategoryOrDefault(input.categoria),
            StockOrZero(input.stock), current.fechaCreacion, Some(now), false, None)
  }

  // ---------------------------------------------------------------------
  // Lookup by id
  // ---------------------------------------------------------------------

  predicate HasId(ps: seq<Product>, id: int) {
    exists k :: 0 <= k < |ps| && ps[k].id == id
  }

  /** No id occurs twice: the head's id is not in the tail, and so on down the sequence. */
  predicate UniqueIds(ps: seq<Product>)
    decreases |ps|
  {
    |ps| == 0 || (!HasId(ps[1..], ps[0].id) && UniqueIds(ps[1..]))
  }

  /** The recursive definition says the same as "no two positions hold the same id". */
  lemma {:induction false} UniqueIdsPairwise(ps: seq<Product>)
    ensures UniqueIds(ps) <==> forall i, j :: 0 <= i < j < |ps| ==> ps[i].id != ps[j].id
    decreases |ps|
  {
    if |ps| > 0 {
      var t := ps[1..];
      UniqueIdsPairwise(t);
      if UniqueIds(ps) {
        forall i, j | 0 <= i < j < |ps| ensures ps[i].id != ps[j].id {
          assert ps[j] == t[j - 1];
          if i > 0 {
            assert ps[i] == t[i - 1];
          }
        }
      }
      if forall i, j :: 0 <= i < j < |ps| ==> ps[i].id != ps[j].id {
        forall i, j | 0 <= i < j < |t| ensures t[i].id != t[j].id {
          assert t[i] == ps[i + 1] && t[j] == ps[j + 1];
        }
        forall k | 0 <= k < |t| ensures t[k].id != ps[0].id {
          assert t[k] == ps[k + 1];
        }
      }
    }
  }

  /** Appending a record with a new id keeps ids unique. */
  lemma {:induction false} UniqueAppend(ps: seq<Product>, p: Product)
    requires UniqueIds(ps) && !HasId(ps, p.id)
    ensures UniqueIds(ps + [p])
    decreases |ps|
  {
    if |ps| > 0 {
      var t := ps[1..];
      assert (ps + [p])[1..] == t + [p];
      assert !HasId(t, p.id) by {
        forall k | 0 <= k < |t| ensures t[k].id != p.id {
          assert t[k] == ps[k + 1];
        }
      }
      UniqueAppend(t, p);
      forall k | 0 <= k < |t| + 1 ensures (t + [p])[k].id != ps[0].id {
        if k == |t| {
          assert ps[0].id != p.id;
        }
      }
    }
  }

  /** Overwriting a record by one with the same id keeps ids unique. */
  lemma UniqueUpdate(ps: seq<Product>, i: int, p: Product)
    requires 0 <= i < |ps| && UniqueIds(ps) && p.id == ps[i].id
    ensures UniqueIds(ps[i := p])
  {
    var qs := ps[i := p];
    UniqueIdsPairwise(ps);
    UniqueIdsPairwise(qs);
    forall a, b | 0 <= a < b < |qs| ensures qs[a].id != qs[b].id {
      assert qs[a].id == ps[a].id && qs[b].id == ps[b].id;
    }
  }

  /** `productos.findIndex(p => p.id === id)`: the first index holding `id`, or -1. */
  function FindIndex(ps: seq<Product>, id: int): (r: int)
    ensures -1 <= r < |ps|
    ensures r == -1 <==> !HasId(ps, id)
    ensures r >= 0 ==> ps[r].id == id && forall k :: 0 <= k < r ==> ps[k].id != id
  {
    if |ps| == 0 then -1
    else if ps[0].id == id then 0
    else
      var r := FindIndex(ps[1..], id);
      assert HasId(ps, id) ==> HasId(ps[1..], id) by {
        if HasId(ps, id) {
          var k :| 0 <= k < |ps| && ps[k].id == id;
          assert ps[1..][k - 1].id == id;
        }
      }
      if r == -1 then -1 else r + 1
  }

  /** GET /productos/:id. */
  function GetById(ps: seq<Product>, id: int): (r: Outcome<Product>)
    ensures r.Ok? <==> HasId(ps, id)
    ensures r.Ok? ==> r.status == 200 && r.value.id == id && r.value in ps
    ensures r.Err? ==> r == Err(404, NotFoundMessage)
  {
    var i := FindIndex(ps, id);
    if i < 0 then Err(404, NotFoundMessage) else Ok(200, ps[i])
  }

  /** `productos.splice(i, 1)` on the collection. */
  function RemoveAt(ps: seq<Product>, i: int): (r: seq<Product>)
    requires 0 <= i < |ps|
  {
    ps[..i] + ps[i + 1..]
  }

  // ---------------------------------------------------------------------
  // Filtering
  // ---------------------------------------------------------------------

  /** `s.filter(keep)`. */
  function Filter(s: seq<Product>, keep: Product -> bool): (r: seq<Product>)
    ensures |r| <= |s|
    ensures forall k :: 0 <= k < |r| ==> keep(r[k]) && r[k] in s
    ensures forall p :: keep(p) ==> multiset(r)[p] == multiset(s)[p]
  {
    if |s| == 0 then []
    else
      var rest := Filter(s[1..], keep);
      assert s == [s[0]] + s[1..];
      if keep(s[0]) then [s[0]] + rest else rest
  }

  /** `a` is `b` with some elements left out, the rest kept in order. */
  predicate IsSubsequence(a: seq<Product>, b: seq<Product>)
    decreases |b|
  {
    if a == [] then true
    else if b == [] then false
    else if a[0] == b[0] then IsSubsequence(a[1..], b[1..])
    else IsSubsequence(a, b[1..])
  }

  lemma {:induction false} FilterIsSubsequence(s: seq<Product>, keep: Product -> bool)
    ensures IsSubsequence(Filter(s, keep), s)
    decreases |s|
  {
    if |s| > 0 {
      FilterIsSubsequence(s[1..], keep);
      var rest := Filter(s[1..], keep);
      if !keep(s[0]) && rest != [] {
        assert IsSubsequence(rest, s) by {
          SubsequenceOfTail(rest, s);
        }
      } else if keep(s[0]) {
        assert ([s[0]] + rest)[1..] == rest;
      }
    }
  }

  lemma {:induction false} SubsequenceOfTail(a: seq<Product>, b: seq<Product>)
    requires |b| > 0 && IsSubsequence(a, b[1..])
    ensures IsSubsequence(a, b)
    decreases |b|, 0
  {
    if a != [] && a[0] == b[0] {
      // a[1..] is a subsequence of b[1..] because a is one of b[1..]
      SubsequenceDropHead(a, b[1..]);
    }
  }

  lemma {:induction false} SubsequenceDropHead(a: seq<Product>, b: seq<Product>)
    requires a != [] && IsSubsequence(a, b)
    ensures IsSubsequence(a[1..], b)
    decreases |b|, 1
  {
    if b == [] {
    } else if a[0] == b[0] {
      if a[1..] != [] {
        SubsequenceOfTail(a[1..], b);
      }
    } else {
      SubsequenceDropHead(a, b[1..]);
      if a[1..] != [] {
        SubsequenceOfTail(a[1..], b);
      }
    }
  }

  lemma {:induction false} FilterExtensional(s: seq<Product>, f: Product -> bool, g: Product -> bool)
    requires forall p :: f(p) == g(p)
    ensures Filter(s, f) == Filter(s, g)
    decreases |s|
  {
    if |s| > 0 {
      FilterExtensional(s[1..], f, g);
    }
  }

  /** A filter that accepts every element present keeps the whole sequence. */
  lemma {:induction false} FilterKeepsEvery(s: seq<Product>, f: Product -> bool)
    requires forall k :: 0 <= k < |s| ==> f(s[k])
    ensures Filter(s, f) == s
    decreases |s|
  {
    if |s| > 0 {
      FilterKeepsEvery(s[1..], f);
      assert s == [s[0]] + s[1..];
    }
  }

  /** Two filters in a row are one filter by the conjunction. */
  lemma {:induction false} FilterFusion(s: seq<Product>, f: Product -> bool, g: Product -> bool, h: Product -> bool)
    requires forall p :: h(p) == (f(p) && g(p))
    ensures Filter(Filter(s, f), g) == Filter(s, h)
    decreases |s|
  {
    if |s| > 0 {
      FilterFusion(s[1..], f, g, h);
      var rest := Filter(s[1..], f);
      if f(s[0]) {
        assert ([s[0]] + rest)[1..] == rest;
      }
    }
  }

  // ---------------------------------------------------------------------
  // GET /productos: filters, then offset pagination
  // ---------------------------------------------------------------------

  /**
   * The query of the listing. A query string that is absent or empty is
   * falsy and disables its filter: `categoria` is None or "" then; the two
   * price bounds are the numbers `parseFloat` yields, None when absent.
   */
  datatype ListQuery = ListQuery(
    categoria: Option<string>,
    precioMin: Option<real>,
    precioMax: Option<real>,
    pagina: Option<int>,
    limite: Option<int>)

  /** Page numbers and sizes the model covers: at least 1 when given (defaults 1 and 10). */
  predicate ValidPaging(q: ListQuery) {
    (q.pagina.Some? ==> q.pagina.value >= 1) && (q.limite.Some? ==> q.limite.value >= 1)
  }

  predicate CategoryFilterOn(q: ListQuery) {
    q.categoria.Some? && q.categoria.value != ""
  }

  /** Every filter the query turns on accepts `p`. */
  predicate Matches(p: Product, q: ListQuery) {
    && (CategoryFilterOn(q) ==> p.categoria == q.categoria.value)
    && (q.precioMin.Some? ==> p.precio >= q.precioMin.value)
    && (q.precioMax.Some? ==> p.precio <= q.precioMax.value)
  }

  /** The filter by category, `p.categoria === categoria`. */
  function CategoryIs(c: string): Product -> bool {
    (p: Product) => p.categoria == c
  }

  /** The filter by minimum price, `p.precio >= min`. */
  function PriceAtLeast(min: real): Product -> bool {
    (p: Product) => p.precio >= min
  }

  /** The filter by maximum price, `p.precio <= max`. */
  function PriceAtMost(max: real): Product -> bool {
    (p: Product) => p.precio <= max
  }

  /** `Matches` as a filter. */
  function MatchesQuery(q: ListQuery): Product -> bool {
    (p: Product) => Matches(p, q)
  }

  /** The three filters, applied one after another to a copy of the collection. */
  function Filtered(ps: seq<Product>, q: ListQuery): seq<Product> {
    var byCategory := if CategoryFilterOn(q) then Filter(ps, CategoryIs(q.categoria.value)) else ps;
    var byMin := if q.precioMin.Some? then Filter(byCategory, PriceAtLeast(q.precioMin.value)) else byCategory;
    if q.precioMax.Some? then Filter(byMin, PriceAtMost(q.precioMax.value)) else byMin
  }

  /** The first filter as a test that also passes everything when it is off. */
  function CategoryOk(q: ListQuery): Product -> bool {
    (p: Product) => CategoryFilterOn(q) ==> p.categoria == q.categoria.value
  }

  /** The first two filters as one test. */
  function CategoryAndMinOk(q: ListQuery): Product -> bool {
    (p: Product) => (CategoryFilterOn(q) ==> p.categoria == q.categoria.value)
                    && (q.precioMin.Some? ==> p.precio >= q.precioMin.value)
  }

  lemma CategoryStage(ps: seq<Product>, q: ListQuery)
    ensures (if CategoryFilterOn(q) then Filter(ps, CategoryIs(q.categoria.value)) else ps)
            == Filter(ps, CategoryOk(q))
  {
    if CategoryFilterOn(q) {
      FilterExtensional(ps, CategoryIs(q.categoria.value), CategoryOk(q));
    } else {
      FilterKeepsEvery(ps, CategoryOk(q));
    }
  }

  lemma MinStage(ps: seq<Product>, q: ListQuery)
    ensures var byCategory := Filter(ps, CategoryOk(q));
      (if q.precioMin.Some? then Filter(byCategory, PriceAtLeast(q.precioMin.value)) else byCategory)
      == Filter(ps, CategoryAndMinOk(q))
  {
    var byCategory := Filter(ps, CategoryOk(q));
    if q.precioMin.Some? {
      FilterFusion(ps, CategoryOk(q), PriceAtLeast(q.precioMin.value), CategoryAndMinOk(q));
    } else {
      FilterExtensional(ps, CategoryOk(q), CategoryAndMinOk(q));
    }
  }

  lemma MaxStage(ps: seq<Product>, q: ListQuery)
    ensures var byMin := Filter(ps, CategoryAndMinOk(q));
      (if q.precioMax.Some? then Filter(byMin, PriceAtMost(q.precioMax.value)) else byMin)
      == Filter(ps, MatchesQuery(q))
  {
    if q.precioMax.Some? {
      FilterFusion(ps, CategoryAndMinOk(q), PriceAtMost(q.precioMax.value), MatchesQuery(q));
    } else {
      FilterExtensional(ps, CategoryAndMinOk(q), MatchesQuery(q));
    }
  }

  /**
   * The listing keeps exactly the products that pass every active filter, in
   * store order: it is one filter by `Matches`.
   */
  lemma FilteredIsFilterByMatches(ps: seq<Product>, q: ListQuery)
    ensures Filtered(ps, q) == Filter(ps, MatchesQuery(q))
  {
    CategoryStage(ps, q);
    MinStage(ps, q);
    MaxStage(ps, q);
  }

  /**
   * The listing is a subsequence of the store, every item passes every
   * active filter, and every product that passes them is listed as often as
   * it is stored.
   */
  lemma FilteredSpec(ps: seq<Product>, q: ListQuery)
    ensures IsSubsequence(Filtered(ps, q), ps)
    ensures forall k :: 0 <= k < |Filtered(ps, q)| ==> Matches(Filtered(ps, q)[k], q)
    ensures forall p :: Matches(p, q) ==> multiset(Filtered(ps, q))[p] == multiset(ps)[p]
  {
    FilteredIsFilterByMatches(ps, q);
    FilterIsSubsequence(ps, MatchesQuery(q));
  }

  /** `Math.ceil(n / d)` for a count and a positive page size. */
  function CeilDiv(n: nat, d: int): (r: nat)
    requires d >= 1
    ensures n <= r * d
    ensures r > 0 ==> (r - 1) * d < n
  {
    (n + d - 1) / d
  }

  /** `s.slice(start, end)` for 0 <= start <= end: both ends are clamped to the length. */
  function Slice(s: seq<Product>, start: int, end: int): (r: seq<Product>)
    requires 0 <= start <= end
    ensures |r| <= end - start
    ensures start >= |s| ==> r == []
    ensures start < |s| && end <= |s| ==> r == s[start..end]
    ensures start < |s| && end > |s| ==> r == s[start..]
  {
    if start >= |s| then [] else if end >= |s| then s[start..] else s[start..end]
  }

  /** Page `pagina` of `s` for pages of `limite` items: the slice from `(pagina - 1) * limite`. */
  function Page(s: seq<Product>, pagina: int, limite: int): (r: seq<Product>)
    requires pagina >= 1 && limite >= 1
    ensures |r| <= limite
    ensures PageStart(pagina, limite) >= |s| ==> r == []
    ensures PageStart(pagina, limite) < |s| ==>
      r == s[PageStart(pagina, limite)..PageEnd(|s|, pagina, limite)]
  {
    var inicio := PageStart(pagina, limite);
    Slice(s, inicio, inicio + limite)
  }

  /** The offset of page `pagina`: `(pagina - 1) * limite`. */
  function PageStart(pagina: int, limite: int): (r: nat)
    requires pagina >= 1 && limite >= 1
    ensures r == (pagina - 1) * limite
  {
    assert 0 <= (pagina - 1) * limite by {
      assert pagina - 1 >= 0;
    }
    (pagina - 1) * limite
  }

  /** Where page `pagina` ends in a list of length `n`: the next page's offset, clamped to `n`. */
  function PageEnd(n: nat, pagina: int, limite: int): (r: nat)
    requires pagina >= 1 && limite >= 1
    ensures PageStart(pagina, limite) < n ==> PageStart(pagina, limite) < r <= n
    ensures r == n || r == PageStart(pagina, limite) + limite
  {
    if PageStart(pagina, limite) + limite <= n then PageStart(pagina, limite) + limite else n
  }

  datatype ListPage = ListPage(
    productos: seq<Product>,
    total: int,
    pagina: int,
    limite: int,
    paginasTotal: int)

  /** GET /productos. */
  function ListProducts(ps: seq<Product>, q: ListQuery): (r: ListPage)
    requires ValidPaging(q)
    ensures r.pagina >= 1 && r.limite >= 1
    ensures r.pagina == q.pagina.GetOr(1) && r.limite == q.limite.GetOr(10)
    ensures r.total == |Filtered(ps, q)|
    ensures |r.productos| <= r.limite
    ensures r.paginasTotal == CeilDiv(r.total, r.limite)
    ensures r.productos == Page(Filtered(ps, q), r.pagina, r.limite)
  {
    var resultados := Filtered(ps, q);
    var pagina := q.pagina.GetOr(1);
    var limite := q.limite.GetOr(10);
    ListPage(Page(resultados, pagina, limite), |resultados|, pagina, limite,
             CeilDiv(|resultados|, limite))
  }

  /** Pages `first` to `last` of the listing, concatenated. */
  function PagesFrom(ps: seq<Product>, q: ListQuery, first: int, last: int): seq<Product>
    requires ValidPaging(q) && first >= 1
    decreases last + 1 - first
  {
    if last < first then []
    else ListProducts(ps, q.(pagina := Some(first))).productos + PagesFrom(ps, q, first + 1, last)
  }

  /** Pages `first` to `last` of `s` for pages of `limite` items, concatenated. */
  function Pages(s: seq<Product>, limite: int, first: int, last: int): seq<Product>
    requires limite >= 1 && first >= 1
    decreases last + 1 - first
  {
    if last < first then [] else Page(s, first, limite) + Pages(s, limite, first + 1, last)
  }

  /** Concatenating pages 1 to `paginasTotal` gives back the filtered list, each item once. */
  lemma PagesReassemble(ps: seq<Product>, q: ListQuery)
    requires ValidPaging(q)
    ensures PagesFrom(ps, q, 1, ListProducts(ps, q).paginasTotal) == Filtered(ps, q)
  {
    var s := Filtered(ps, q);
    var lim := q.limite.GetOr(10);
    var n := CeilDiv(|s|, lim);
    ListedPagesArePages(ps, q, 1, n);
    PagesCover(s, lim, n, 1);
    assert s[0..] == s;
  }

  /** A page past `paginasTotal` starts at or beyond the end of the filtered list, so it is empty. */
  lemma PastLastPageEmpty(ps: seq<Product>, q: ListQuery)
    requires ValidPaging(q)
    requires ListProducts(ps, q).pagina > ListProducts(ps, q).paginasTotal
    ensures ListProducts(ps, q).productos == []
  {
    var r := ListProducts(ps, q);
    MulMonotone(r.paginasTotal, r.pagina - 1, r.limite);
    assert PageStart(r.pagina, r.limite) >= r.total;
  }

  lemma {:induction false} ListedPagesArePages(ps: seq<Product>, q: ListQuery, first: int, last: int)
    requires ValidPaging(q) && first >= 1
    ensures PagesFrom(ps, q, first, last) == Pages(Filtered(ps, q), q.limite.GetOr(10), first, last)
    decreases last + 1 - first
  {
    if first <= last {
      FilteredIgnoresPaging(ps, q, first);
      ListedPagesArePages(ps, q, first + 1, last);
    }
  }

  /** The page number plays no part in which products are listed. */
  lemma FilteredIgnoresPaging(ps: seq<Product>, q: ListQuery, k: int)
    ensures Filtered(ps, q.(pagina := Some(k))) == Filtered(ps, q)
  {
    var q' := q.(pagina := Some(k));
    FilteredIsFilterByMatches(ps, q);
    FilteredIsFilterByMatches(ps, q');
    FilterExtensional(ps, MatchesQuery(q'), MatchesQuery(q));
  }

  /** Pages `k` to `n` cover the list from offset `(k - 1) * lim` on, when `n` is the page count. */
  lemma {:induction false} PagesCover(s: seq<Product>, lim: int, n: int, k: int)
    requires lim >= 1 && n == CeilDiv(|s|, lim) && 1 <= k <= n + 1
    ensures k <= n ==> (k - 1) * lim < |s|
    ensures Pages(s, lim, k, n) == if k <= n then s[(k - 1) * lim..] else []
    decreases n + 1 - k
  {
    if k <= n {
      var start := (k - 1) * lim;
      PageBounds(|s|, lim, n, k);
      assert Page(s, k, lim) == Slice(s, start, start + lim);
      PagesCover(s, lim, n, k + 1);
      if k < n {
        assert Pages(s, lim, k + 1, n) == s[start + lim..];
        assert s[start..] == s[start..start + lim] + s[start + lim..];
      }
    }
  }

  /** Where page `k` of `n` starts and ends relative to a list of `len` items. */
  lemma PageBounds(len: nat, lim: int, n: int, k: int)
    requires lim >= 1 && n == CeilDiv(len, lim) && 1 <= k <= n
    ensures 0 <= (k - 1) * lim < len
    ensures (k - 1) * lim + lim == k * lim
    ensures k < n ==> k * lim < len
    ensures k == n ==> len <= k * lim
  {
    MulMonotone(k - 1, n - 1, lim);
    if k < n {
      MulMonotone(k, n - 1, lim);
    }
  }

  lemma MulMonotone(a: int, b: int, c: int)
    requires 0 <= a <= b && c >= 0
    ensures a * c <= b * c
  {
  }

  // ---------------------------------------------------------------------
  // PATCH /productos/:id: the allow-listed, individually checked updates
  // ---------------------------------------------------------------------

  /** The `actualizaciones` object: one optional new value per updatable field. */
  datatype Updates = Updates(
    nombre: Option<string>,
    precio: Option<real>,
    categoria: Option<string>,
    stock: Option<real>)

  const NoUpdates: Updates := Updates(None, None, None, None)

  /** The four allow-listed keys of `camposActualizables`, and every other key. */
  datatype Campo = Nombre | Precio | Categoria | Stock | NotUpdatable

  /** `camposActualizables.includes(campo)` followed by the `switch (campo)`. */
  function CampoOf(campo: string): Campo {
    if campo == "nombre" then Nombre
    else if campo == "precio" then Precio
    else if campo == "categoria" then Categoria
    else if campo == "stock" then Stock
    else NotUpdatable
  }

  /** The check PATCH applies to the value of each allow-listed field. */
  predicate AcceptedNombre(v: Field) { v.Str? && |Trim(v.s)| > 0 }
  predicate AcceptedPrecio(v: Field) { v.Num? && v.n > 0.0 }
  predicate AcceptedCategoria(v: Field) { v.Str? }
  predicate AcceptedStock(v: Field) { v.Num? && v.n >= 0.0 }

  predicate Accepts(c: Campo, v: Field) {
    match c
    case Nombre => AcceptedNombre(v)
    case Precio => AcceptedPrecio(v)
    case Categoria => AcceptedCategoria(v)
    case Stock => AcceptedStock(v)
    case NotUpdatable => false
  }

  /** The entry names field `c` with a value that passes `c`'s check. */
  predicate Sets(entry: (string, Field), c: Campo) {
    CampoOf(entry.0) == c && Accepts(c, entry.1)
  }

  /**
   * One iteration of the loop over `Object.entries(req.body)`: the `switch`
   * on the allow-listed key, then that field's check.
   */
  function UpdateStep(u: Updates, entry: (string, Field)): Updates {
    var valor := entry.1;
    Updates(
      if Sets(entry, Nombre) then Some(Trim(valor.s)) else u.nombre,
      if Sets(entry, Precio) then Some(valor.n) else u.precio,
      if Sets(entry, Categoria) then Some(valor.s) else u.categoria,
      if Sets(entry, Stock) then Some(valor.n) else u.stock)
  }

  /** The updates the whole body yields, entry by entry in order. */
  function UpdatesOf(body: seq<(string, Field)>): Updates
    decreases |body|
  {
    if |body| == 0 then NoUpdates
    else UpdateStep(UpdatesOf(body[..|body| - 1]), body[|body| - 1])
  }

  /** The index of the last entry that sets field `c`, or -1. */
  function LastSetting(body: seq<(string, Field)>, c: Campo): (r: int)
    ensures -1 <= r < |body|
    ensures r >= 0 ==> Sets(body[r], c)
    ensures forall j :: r < j < |body| ==> !Sets(body[j], c)
    decreases |body|
  {
    if |body| == 0 then -1
    else if Sets(body[|body| - 1], c) then |body| - 1
    else LastSetting(body[..|body| - 1], c)
  }

  /**
   * A field is updated exactly when some entry sets it, and then takes the
   * (trimmed, for the name) value of the last entry that does; keys outside
   * the allow-list and values that fail their check change nothing.
   */
  lemma UpdatesOfSpec(body: seq<(string, Field)>)
    ensures var u := UpdatesOf(body);
      var n, p, c, s := LastSetting(body, Nombre), LastSetting(body, Precio),
                        LastSetting(body, Categoria), LastSetting(body, Stock);
      && u.nombre == (if n < 0 then None else Some(Trim(body[n].1.s)))
      && u.precio == (if p < 0 then None else Some(body[p].1.n))
      && u.categoria == (if c < 0 then None else Some(body[c].1.s))
      && u.stock == (if s < 0 then None else Some(body[s].1.n))
  {
    UpdatesOfNombre(body);
    UpdatesOfPrecio(body);
    UpdatesOfCategoria(body);
    UpdatesOfStock(body);
  }

  lemma {:induction false} UpdatesOfNombre(body: seq<(string, Field)>)
    ensures var n := LastSetting(body, Nombre);
      UpdatesOf(body).nombre == if n < 0 then None else Some(Trim(body[n].1.s))
    decreases |body|
  {
    if |body| > 0 {
      var init := body[..|body| - 1];
      UpdatesOfNombre(init);
      var k := LastSetting(init, Nombre);
      assert k >= 0 ==> body[k] == init[k];
    }
  }

  lemma {:induction false} UpdatesOfPrecio(body: seq<(string, Field)>)
    ensures var n := LastSetting(body, Precio);
      UpdatesOf(body).precio == if n < 0 then None else Some(body[n].1.n)
    decreases |body|
  {
    if |body| > 0 {
      var init := body[..|body| - 1];
      UpdatesOfPrecio(init);
      var k := LastSetting(init, Precio);
      assert k >= 0 ==> body[k] == init[k];
    }
  }

  lemma {:induction false} UpdatesOfCategoria(body: seq<(string, Field)>)
    ensures var n := LastSetting(body, Categoria);
      UpdatesOf(body).categoria == if n < 0 then None else Some(body[n].1.s)
    decreases |body|
  {
    if |body| > 0 {
      var init := body[..|body| - 1];
      UpdatesOfCategoria(init);
      var k := LastSetting(init, Categoria);
      assert k >= 0 ==> body[k] == init[k];
    }
  }

  lemma {:induction false} UpdatesOfStock(body: seq<(string, Field)>)
    ensures var n := LastSetting(body, Stock);
      UpdatesOf(body).stock == if n < 0 then None else Some(body[n].1.n)
    decreases |body|
  {
    if |body| > 0 {
      var init := body[..|body| - 1];
      UpdatesOfStock(init);
      var k := LastSetting(init, Stock);
      assert k >= 0 ==> body[k] == init[k];
    }
  }

  /**
   * The product after `Object.assign(producto, actualizaciones)` and the new
   * `fechaActualizacion`.
   */
  function Patched(p: Product, u: Updates, now: Timestamp): (r: Product)
    ensures r.id == p.id && r.fechaCreacion == p.fechaCreacion
    ensures r.eliminado == p.eliminado && r.fechaEliminacion == p.fechaEliminacion
    ensures r.nombre == (if u.nombre.Some? then u.nombre.value else p.nombre)
    ensures r.precio == (if u.precio.Some? then u.precio.value else p.precio)
    ensures r.categoria == (if u.categoria.Some? then u.categoria.value else p.categoria)
    ensures r.stock == (if u.stock.Some? then u.stock.value else p.stock)
    ensures r.fechaActualizacion == Some(now)
  {
    p.(nombre := u.nombre.GetOr(p.nombre),
       precio := u.precio.GetOr(p.precio),
       categoria := u.categoria.GetOr(p.categoria),
       stock := u.stock.GetOr(p.stock),
       fechaActualizacion := Some(now))
  }

  /** Applying the same partial update twice is applying it once (up to the time stamp). */
  lemma PatchIdempotent(p: Product, body: seq<(string, Field)>, t1: Timestamp, t2: Timestamp)
    ensures Patched(Patched(p, UpdatesOf(body), t1), UpdatesOf(body), t2) == Patched(p, UpdatesOf(body), t2)
  {
  }

  /**
   * The loop of the PATCH handler that builds `actualizaciones` from the
   * body's entries.
   */
  method CollectUpdates(body: seq<(string, Field)>) returns (u: Updates)
    ensures u == UpdatesOf(body)
  {
    u := NoUpdates;
    var i := 0;
    while i < |body|
      invariant 0 <= i <= |body|
      invariant u == UpdatesOf(body[..i])
    {
      ghost var before := u;
      var (campo, valor) := body[i];
      var c := CampoOf(campo);
      assert c == NotUpdatable ==> UpdateStep(u, body[i]) == u;
      if c == Nombre {
        if valor.Str? && |Trim(valor.s)| > 0 {
          u := u.(nombre := Some(Trim(valor.s)));
        }
      } else if c == Precio {
        if valor.Num? && valor.n > 0.0 {
          u := u.(precio := Some(valor.n));
        }
      } else if c == Categoria {
        if valor.Str? {
          u := u.(categoria := Some(valor.s));
        }
      } else if c == Stock {
        if valor.Num? && valor.n >= 0.0 {
          u := u.(stock := Some(valor.n));
        }
      }
      assert u == UpdateStep(before, body[i]);
      assert body[..i + 1][..i] == body[..i] && body[..i + 1][i] == body[i];
      i := i + 1;
    }
    assert body[..|body|] == body;
  }

  // ---------------------------------------------------------------------
  // Soft delete and restore, on one record
  // ---------------------------------------------------------------------

  /** The deletion flag and its time stamp are set and cleared together. */
  predicate DeletionConsistent(p: Product) {
    p.eliminado <==> p.fechaEliminacion.Some?
  }

  /** The record after a soft delete: flagged and stamped, every other field kept. */
  function SoftDeleted(p: Product, now: Timestamp): (r: Product)
    ensures r.eliminado && r.fechaEliminacion == Some(now) && DeletionConsistent(r)
    ensures r.(eliminado := p.eliminado, fechaEliminacion := p.fechaEliminacion) == p
  {
    p.(eliminado := true, fechaEliminacion := Some(now))
  }

  /** The record after a restore: flag and stamp removed, every other field kept. */
  function Restored(p: Product): (r: Product)
    ensures !r.eliminado && r.fechaEliminacion == None && DeletionConsistent(r)
    ensures r.(eliminado := p.eliminado, fechaEliminacion := p.fechaEliminacion) == p
  {
    p.(eliminado := false, fechaEliminacion := None)
  }

  /** Restoring a product soft-deleted from a live state gives the product back unchanged. */
  lemma RestoreUndoesSoftDelete(p: Product, now: Timestamp)
    requires DeletionConsistent(p) && !p.eliminado
    ensures Restored(SoftDeleted(p, now)) == p
  {
  }
}
