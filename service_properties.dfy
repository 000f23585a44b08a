/**
 * The backend's property tests as statements about the service: each method
 * starts from an empty store, as the tests do after `deleteAll`, performs the
 * test's operations through the service, and promises what the test checks.
 */
module ServiceProperties {
  import opened Wrappers
  import opened Products
  import opened ProductValidity
  import opened Service

  /** `created[j]` is `products[j]` saved under `ids[j]`, for each of the first `n` products. */
  ghost predicate CreatedFrom(products: seq<Product>, n: nat, created: seq<Product>, ids: seq<nat>) {
    && n <= |products| && |created| == n && |ids| == n
    && (forall j :: 0 <= j < n ==> created[j] == products[j].(id := Some(ids[j])))
  }

  /** Row `ids[j]` of `after` holds `created[j]`; the ids are distinct and were free in `before`. */
  ghost predicate RowsAdded(before: map<nat, Product>, after: map<nat, Product>, created: seq<Product>, ids: seq<nat>) {
    && |created| == |ids|
    && Distinct(ids)
    && (forall j :: 0 <= j < |ids| ==> ids[j] !in before && ids[j] in after && after[ids[j]] == created[j])
  }

  /** `after` differs from `before` only by the rows under `ids`. */
  ghost predicate OnlyAdded(before: map<nat, Product>, after: map<nat, Product>, ids: seq<nat>) {
    && (forall k :: k in after ==> k in before || k in ids)
    && (forall k :: k in before ==> k in after && after[k] == before[k])
    && |after| == |before| + |ids|
  }

  /**
   * `after` is `before` with one new row for each of the first `n` products:
   * row `ids[j]` holds `created[j]`, which is `products[j]` under that id, and
   * nothing else changed.
   */
  ghost predicate Populated(before: map<nat, Product>, after: map<nat, Product>,
                            products: seq<Product>, n: nat, created: seq<Product>, ids: seq<nat>) {
    CreatedFrom(products, n, created, ids) && RowsAdded(before, after, created, ids) && OnlyAdded(before, after, ids)
  }

  lemma CreatedFromStep(products: seq<Product>, n: nat, created: seq<Product>, ids: seq<nat>, c: Product, newId: nat)
    requires CreatedFrom(products, n, created, ids) && n < |products|
    requires c == products[n].(id := Some(newId))
    ensures CreatedFrom(products, n + 1, created + [c], ids + [newId])
  {
    var created', ids' := created + [c], ids + [newId];
    forall j | 0 <= j < n + 1 ensures created'[j] == products[j].(id := Some(ids'[j])) {
      if j < n {
        assert created'[j] == created[j] && ids'[j] == ids[j];
      }
    }
  }

  lemma RowsAddedStep(before: map<nat, Product>, after: map<nat, Product>, created: seq<Product>, ids: seq<nat>,
                      c: Product, newId: nat)
    requires RowsAdded(before, after, created, ids)
    requires before.Keys <= after.Keys && newId !in after
    ensures RowsAdded(before, after[newId := c], created + [c], ids + [newId])
  {
    var after', created', ids' := after[newId := c], created + [c], ids + [newId];
    forall j | 0 <= j < |ids'|
      ensures ids'[j] !in before && ids'[j] in after' && after'[ids'[j]] == created'[j]
    {
      if j < |ids| {
        assert created'[j] == created[j] && ids'[j] == ids[j];
      }
    }
    forall i, j | 0 <= i < j < |ids'| ensures ids'[i] != ids'[j] {
      assert ids'[i] == ids[i];
      if j < |ids| { assert ids'[j] == ids[j]; }
    }
  }

  lemma OnlyAddedStep(before: map<nat, Product>, after: map<nat, Product>, ids: seq<nat>, c: Product, newId: nat)
    requires OnlyAdded(before, after, ids)
    requires newId !in after
    ensures OnlyAdded(before, after[newId := c], ids + [newId])
  {
    var after', ids' := after[newId := c], ids + [newId];
    forall k | k in after' ensures k in before || k in ids' {
      if k != newId && k !in before {
        var j :| 0 <= j < |ids| && ids[j] == k;
        assert ids'[j] == k;
      }
    }
  }

  /** Creates every product in order, returning the saved records and their ids. */
  method CreateAll(s: ProductService, products: seq<Product>) returns (created: seq<Product>, ids: seq<nat>)
    requires s.Valid()
    modifies s
    ensures s.Valid()
    ensures Populated(old(s.table), s.table, products, |products|, created, ids)
  {
    created, ids := [], [];
    ghost var before := s.table;
    var i := 0;
    while i < |products|
      invariant s.Valid()
      invariant Populated(before, s.table, products, i, created, ids)
    {
      ghost var t := s.table;
      var c := s.CreateProduct(products[i]);
      CreatedFromStep(products, i, created, ids, c, c.id.value);
      RowsAddedStep(before, t, created, ids, c, c.id.value);
      OnlyAddedStep(before, t, ids, c, c.id.value);
      created := created + [c];
      ids := ids + [c.id.value];
      i := i + 1;
    }
  }

  /** Creation round trip: the record read back under the new id carries the six submitted fields. */
  method CreationRoundTrip(p: Product) returns (created: Product, found: Option<Product>)
    requires ValidProduct(p)
    ensures created.id.Some?
    ensures found == Some(created)
    ensures created.MutableFields() == p.MutableFields()
    ensures ValidFields(found.value.MutableFields())
  {
    var s := new ProductService();
    created := s.CreateProduct(p);
    found := s.GetProductById(created.id.value);
  }

  /**
   * A create whose argument carries the id of an existing record still inserts
   * a new record and leaves the existing one as it was.
   */
  method CreateIgnoresSuppliedId(first: Product, second: Product) returns (a: Product, b: Product, all: seq<Product>)
    ensures a.id.Some? && b.id.Some? && a.id != b.id
    ensures b.MutableFields() == second.MutableFields()
    ensures |all| == 2 && a in all && b in all
  {
    var s := new ProductService();
    a := s.CreateProduct(first);
    b := s.CreateProduct(second.(id := a.id));
    all := s.GetAllProducts();
    assert s.table[a.id.value] == a;
  }

  /** Update correctness: the record keeps its id and reads back with the update's six fields. */
  method UpdateCorrectness(original: Product, update: Product) returns (id: nat, updated: Option<Product>, found: Option<Product>)
    requires ValidProduct(original) && ValidProduct(update)
    ensures updated.Some? && found == updated
    ensures found.value.id == Some(id)
    ensures found.value.MutableFields() == update.MutableFields()
  {
    var s := new ProductService();
    var created := s.CreateProduct(original);
    id := created.id.value;
    updated := s.UpdateProduct(id, update);
    found := s.GetProductById(id);
  }

  /** Updating or deleting an id that was never stored reports absence and stores nothing. */
  method AbsentIdIsReported(id: nat, update: Product) returns (updated: Option<Product>, deleted: bool, all: seq<Product>)
    ensures updated.None? && !deleted && all == []
  {
    var s := new ProductService();
    updated := s.UpdateProduct(id, update);
    deleted := s.DeleteProduct(id);
    all := s.GetAllProducts();
  }

  /** A listing of a store that was empty before the products were created holds exactly the created records. */
  lemma ListingIsCreated(table: map<nat, Product>, listed: seq<Product>,
                         products: seq<Product>, created: seq<Product>, ids: seq<nat>)
    requires Populated(map[], table, products, |products|, created, ids)
    requires Listing(table, listed)
    ensures forall i :: 0 <= i < |created| ==> created[i] in listed
    ensures forall x :: x in listed ==> x in created
  {
    forall i | 0 <= i < |created| ensures created[i] in listed {
      assert table[ids[i]] == created[i];
    }
    forall x | x in listed ensures x in created {
      var i :| 0 <= i < |listed| && listed[i] == x;
      var j :| 0 <= j < |ids| && ids[j] == x.id.value;
      assert table[ids[j]] == created[j];
    }
  }

  /**
   * After the row under `ids[0]` is removed, every other created record is
   * still stored under its own id and is listed.
   */
  lemma ListingKeepsOthers(table: map<nat, Product>, remaining: map<nat, Product>, listed: seq<Product>,
                           products: seq<Product>, created: seq<Product>, ids: seq<nat>)
    requires |products| >= 1
    requires CreatedFrom(products, |products|, created, ids)
    requires RowsAdded(map[], table, created, ids)
    requires remaining == table - {ids[0]}
    requires Listing(remaining, listed)
    ensures forall i :: 1 <= i < |created| ==>
      ids[i] != ids[0] && ids[i] in remaining && remaining[ids[i]] == created[i] && created[i] in listed
  {
    forall i | 1 <= i < |created|
      ensures ids[i] != ids[0] && ids[i] in remaining && remaining[ids[i]] == created[i] && created[i] in listed
    {
      var k := ids[i];
      assert k != ids[0];
      assert k in remaining && remaining[k] == created[i];
      var j :| 0 <= j < |listed| && listed[j] == remaining[k];
    }
  }

  /**
   * Listing completeness: after storing a list of products, the listing has as
   * many records as were created, with distinct ids, and it holds exactly the
   * created records.
   */
  method ListingCompleteness(products: seq<Product>) returns (created: seq<Product>, listed: seq<Product>)
    requires forall i :: 0 <= i < |products| ==> ValidProduct(products[i])
    ensures |created| == |products| && |listed| == |products|
    ensures forall i :: 0 <= i < |created| ==>
      created[i].id.Some? && created[i].MutableFields() == products[i].MutableFields()
    ensures forall i, j :: 0 <= i < j < |listed| ==> listed[i].id != listed[j].id
    ensures forall i :: 0 <= i < |created| ==> created[i] in listed
    ensures forall x :: x in listed ==> x in created
  {
    var s := new ProductService();
    var ids;
    created, ids := CreateAll(s, products);
    listed := s.GetAllProducts();
    ListingIsCreated(s.table, listed, products, created, ids);
  }

  /** `results[k]` is what looking up `wanted[k]` in `table` gives. */
  ghost predicate LookedUp(table: map<nat, Product>, wanted: seq<nat>, results: seq<Option<Product>>) {
    && |results| == |wanted|
    && forall k :: 0 <= k < |wanted| ==>
         (results[k].Some? <==> wanted[k] in table) && (results[k].Some? ==> results[k].value == table[wanted[k]])
  }

  /** Looks up each id in turn, as the test's `existsById` loop does. */
  method FindEach(s: ProductService, wanted: seq<nat>) returns (results: seq<Option<Product>>)
    requires s.Valid()
    ensures LookedUp(s.table, wanted, results)
  {
    results := [];
    var i := 0;
    while i < |wanted|
      invariant 0 <= i <= |wanted|
      invariant LookedUp(s.table, wanted[..i], results)
    {
      var f := s.GetProductById(wanted[i]);
      results := results + [f];
      i := i + 1;
    }
    assert wanted[..i] == wanted;
  }

  /**
   * What the deletion test checks, as a fact about the tables: with the row
   * under `ids[0]` removed, one record fewer is listed, none with that id, and
   * every other created record is found under its id and listed.
   */
  lemma DeletionOutcome(before: map<nat, Product>, after: map<nat, Product>, products: seq<Product>,
                        created: seq<Product>, ids: seq<nat>, listed: seq<Product>, stillFound: seq<Option<Product>>)
    requires |products| >= 1
    requires Populated(map[], before, products, |products|, created, ids)
    requires after == before - {ids[0]}
    requires Listing(after, listed)
    requires LookedUp(after, ids[1..], stillFound)
    ensures |listed| == |products| - 1
    ensures forall x :: x in listed ==> x.id != Some(ids[0])
    ensures |stillFound| == |products| - 1
    ensures forall i :: 1 <= i < |created| ==>
      ids[i] != ids[0] && stillFound[i - 1] == Some(created[i]) && created[i] in listed
  {
    assert ids[0] in before;
    MapRemoveSize(before, ids[0]);
    forall x | x in listed ensures x.id != Some(ids[0]) {
      var j :| 0 <= j < |listed| && listed[j] == x;
    }
    ListingKeepsOthers(before, after, listed, products, created, ids);
    forall i | 1 <= i < |created| ensures stillFound[i - 1] == Some(created[i]) {
      assert ids[1..][i - 1] == ids[i];
    }
  }

  /**
   * Deletion completeness: after storing products and deleting the first, its
   * id is gone, one record fewer is listed, and every other record is still
   * found under its own id, unchanged, and listed.
   */
  method DeletionCompleteness(products: seq<Product>)
    returns (created: seq<Product>, ids: seq<nat>, deleted: bool, found: Option<Product>,
             listed: seq<Product>, stillFound: seq<Option<Product>>)
    requires |products| >= 1
    requires forall i :: 0 <= i < |products| ==> ValidProduct(products[i])
    ensures |created| == |products| && |ids| == |products|
    ensures forall i :: 0 <= i < |created| ==>
      created[i].id == Some(ids[i]) && created[i].MutableFields() == products[i].MutableFields()
    ensures deleted && found.None?
    ensures |listed| == |products| - 1
    ensures forall x :: x in listed ==> x.id != Some(ids[0])
    ensures |stillFound| == |products| - 1
    ensures forall i :: 1 <= i < |created| ==>
      ids[i] != ids[0] && stillFound[i - 1] == Some(created[i]) && created[i] in listed
  {
    var s := new ProductService();
    created, ids := CreateAll(s, products);
    ghost var before := s.table;
    deleted := s.DeleteProduct(ids[0]);
    found := s.GetProductById(ids[0]);
    listed := s.GetAllProducts();
    stillFound := FindEach(s, ids[1..]);
    DeletionOutcome(before, s.table, products, created, ids, listed, stillFound);
  }
}
