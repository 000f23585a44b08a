/**
 * The backend's product service over its repository. The repository's table
 * is a map from id to record; ids come from an identity counter that only
 * grows, so an id is handed out at most once.
 */
module Service {
  import opened Wrappers
  import opened Products

  predicate Distinct(s: seq<nat>) {
    forall i, j :: 0 <= i < j < |s| ==> s[i] != s[j]
  }

  /** `s` with every occurrence of `x` removed, order kept. */
  function Without(s: seq<nat>, x: nat): (r: seq<nat>)
    ensures forall y :: y in r <==> y in s && y != x
    ensures x !in s ==> r == s
  {
    if s == [] then []
    else if s[0] == x then Without(s[1..], x)
    else [s[0]] + Without(s[1..], x)
  }

  /** Removing an id from a list without repeats keeps it without repeats, one shorter when the id was there. */
  lemma {:induction false} WithoutDistinct(s: seq<nat>, x: nat)
    requires Distinct(s)
    ensures Distinct(Without(s, x))
    ensures x in s ==> |Without(s, x)| == |s| - 1
  {
    if s != [] {
      var tail := s[1..];
      assert Distinct(tail) by {
        forall i, j | 0 <= i < j < |tail| ensures tail[i] != tail[j] {
          assert tail[i] == s[i + 1] && tail[j] == s[j + 1];
        }
      }
      WithoutDistinct(tail, x);
      assert s[0] !in tail by {
        forall i | 0 <= i < |tail| ensures tail[i] != s[0] {
          assert tail[i] == s[i + 1];
        }
      }
      if s[0] != x {
        DistinctCons(s[0], Without(tail, x));
      }
    }
  }

  lemma DistinctCons(a: nat, s: seq<nat>)
    requires a !in s && Distinct(s)
    ensures Distinct([a] + s)
  {
    forall i, j | 0 <= i < j < |[a] + s| ensures ([a] + s)[i] != ([a] + s)[j] {
      if i > 0 { assert ([a] + s)[i] == s[i - 1]; }
      assert ([a] + s)[j] == s[j - 1];
    }
  }

  /** The record an update saves: `existing` with the six client fields taken from `details`. */
  function Patched(existing: Product, details: Product): Product {
    Product(existing.id, details.name, details.description, details.price,
            details.stockQuantity, details.category, details.imageUrl,
            existing.createdAt, existing.updatedAt)
  }

  /** An update keeps the record's identity and replaces exactly its six client fields. */
  lemma PatchedReplacesClientFields(existing: Product, details: Product)
    ensures Patched(existing, details).id == existing.id
    ensures Patched(existing, details).MutableFields() == details.MutableFields()
    ensures Patched(existing, details).createdAt == existing.createdAt
    ensures Patched(existing, details).updatedAt == existing.updatedAt
  {
  }

  /** The id carried by the patch plays no part, and patching twice is patching once. */
  lemma PatchedIgnoresPatchId(existing: Product, details: Product, otherId: Option<nat>)
    ensures Patched(existing, details.(id := otherId)) == Patched(existing, details)
    ensures Patched(Patched(existing, details), details) == Patched(existing, details)
  {
  }

  class ProductService {
    /** The repository's rows, keyed by id. */
    var table: map<nat, Product>
    /** The order in which the repository's `findAll` lists the ids. */
    var rows: seq<nat>
    /** The next id the repository's identity generator hands out. */
    var nextId: nat
    /** Every id that has been deleted. */
    ghost var retired: set<nat>

    ghost predicate Valid()
      reads this
    {
      Consistent(table, rows, nextId, retired)
    }

    constructor ()
      ensures Valid()
      ensures table == map[] && retired == {}
    {
      table := map[];
      rows := [];
      nextId := 1;
      retired := {};
    }

    /** `getAllProducts`: every stored record exactly once. */
    method GetAllProducts() returns (all: seq<Product>)
      requires Valid()
      ensures Listing(table, all)
    {
      var t, r := table, rows;
      all := seq(|r|, i requires 0 <= i < |r| && r[i] in t => t[r[i]]);
      forall k | k in table
        ensures exists i :: 0 <= i < |all| && all[i] == table[k]
      {
        var i :| 0 <= i < |r| && r[i] == k;
        assert all[i] == table[k];
      }
    }

    /** `getProductById`: the stored record, or nothing when the id is absent. */
    method GetProductById(id: nat) returns (found: Option<Product>)
      requires Valid()
      ensures found.Some? <==> id in table
      ensures found.Some? ==> found.value == table[id] && found.value.id == Some(id)
    {
      if id in table {
        found := Some(table[id]);
      } else {
        found := None;
      }
    }

    /**
     * The repository's `save`: a record without an id is inserted under a fresh
     * one, a record with an id overwrites the row of that id.
     */
    method Save(p: Product) returns (saved: Product)
      requires Valid()
      requires p.id.None? || p.id.value in table
      modifies this
      ensures Valid()
      ensures retired == old(retired)
      ensures p.id.None? ==>
        && saved == p.(id := Some(old(nextId)))
        && old(nextId) !in old(table) && old(nextId) !in retired
        && table == old(table)[old(nextId) := saved]
        && rows == old(rows) + [old(nextId)]
        && nextId == old(nextId) + 1
      ensures p.id.Some? ==>
        && saved == p
        && table == old(table)[p.id.value := p]
        && rows == old(rows)
        && nextId == old(nextId)
    {
      if p.id.None? {
        var id := nextId;
        saved := p.(id := Some(id));
        table := table[id := saved];
        rows := rows + [id];
        nextId := nextId + 1;
      } else {
        saved := p;
        table := table[p.id.value := p];
      }
    }

    /**
     * `createProduct`: whatever id the caller supplied is cleared, so the record
     * is inserted under an id never used before and no existing row changes.
     */
    method CreateProduct(product: Product) returns (created: Product)
      requires Valid()
      modifies this
      ensures Valid()
      ensures created.id.Some?
      ensures created.id.value !in old(table) && created.id.value !in old(retired)
      ensures created == product.(id := created.id)
      ensures table == old(table)[created.id.value := created]
      ensures |table| == |old(table)| + 1
      ensures retired == old(retired)
    {
      var cleared := product.(id := None);
      created := Save(cleared);
    }

    /**
     * `updateProduct`: when the id is present, its record gets the six client
     * fields of `details` and keeps its own id; otherwise nothing is saved.
     */
    method UpdateProduct(id: nat, details: Product) returns (updated: Option<Product>)
      requires Valid()
      modifies this
      ensures Valid()
      ensures updated.Some? <==> id in old(table)
      ensures id in old(table) ==>
        updated == Some(Patched(old(table[id]), details)) && table == old(table)[id := updated.value]
      ensures id !in old(table) ==> table == old(table)
      ensures rows == old(rows) && nextId == old(nextId) && retired == old(retired)
    {
      if id in table {
        var existing := table[id];
        existing := existing.(name := details.name);
        existing := existing.(description := details.description);
        existing := existing.(price := details.price);
        existing := existing.(stockQuantity := details.stockQuantity);
        existing := existing.(category := details.category);
        existing := existing.(imageUrl := details.imageUrl);
        var saved := Save(existing);
        updated := Some(saved);
      } else {
        updated := None;
      }
    }

    /** `deleteProduct`: removes a present id and says so; an absent id changes nothing. */
    method DeleteProduct(id: nat) returns (deleted: bool)
      requires Valid()
      modifies this
      ensures Valid()
      ensures deleted == (id in old(table))
      ensures table == old(table) - {id}
      ensures deleted ==> |table| == |old(table)| - 1 && retired == old(retired) + {id}
      ensures !deleted ==> table == old(table) && rows == old(rows) && retired == old(retired)
      ensures nextId == old(nextId)
    {
      if id in table {
        ConsistentAfterRemove(table, rows, nextId, retired, id);
        table := table - {id};
        rows := Without(rows, id);
        retired := retired + {id};
        deleted := true;
      } else {
        assert table - {id} == table;
        deleted := false;
      }
    }
  }

  /**
   * `all` lists `table`: one entry per row, each entry the row under its own
   * id, no id twice, and no row missing.
   */
  ghost predicate Listing(table: map<nat, Product>, all: seq<Product>) {
    && |all| == |table|
    && (forall i :: 0 <= i < |all| ==> all[i].id.Some? && all[i].id.value in table && table[all[i].id.value] == all[i])
    && (forall i, j :: 0 <= i < j < |all| ==> all[i].id != all[j].id)
    && (forall k :: k in table ==> exists i :: 0 <= i < |all| && all[i] == table[k])
  }

  /**
   * The store's invariant: every row is keyed by its own id, every id ever
   * handed out lies below the counter, deleted ids are gone, and the listing
   * order names each row exactly once.
   */
  ghost predicate Consistent(table: map<nat, Product>, rows: seq<nat>, nextId: nat, retired: set<nat>) {
    && 0 < nextId
    && (forall k :: k in table ==> 0 < k < nextId && table[k].id == Some(k))
    && (forall k :: k in retired ==> k < nextId && k !in table)
    && Distinct(rows)
    && |rows| == |table|
    && (forall i :: 0 <= i < |rows| ==> rows[i] in table)
    && (forall k :: k in table ==> k in rows)
  }

  lemma ConsistentAfterRemove(table: map<nat, Product>, rows: seq<nat>, nextId: nat, retired: set<nat>, id: nat)
    requires Consistent(table, rows, nextId, retired) && id in table
    ensures Consistent(table - {id}, Without(rows, id), nextId, retired + {id})
    ensures |table - {id}| == |table| - 1
  {
    MapRemoveSize(table, id);
    WithoutDistinct(rows, id);
    var t, r := table - {id}, Without(rows, id);
    forall i | 0 <= i < |r| ensures r[i] in t {
      assert r[i] in r;
    }
  }

  lemma MapRemoveSize<K, V>(m: map<K, V>, k: K)
    requires k in m
    ensures |m - {k}| == |m| - 1
  {
    assert (m - {k}).Keys == m.Keys - {k};
  }
}
