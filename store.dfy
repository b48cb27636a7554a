/**
 * The `products` table of lib/database.ts, held in memory.
 *
 * The table keeps its rows in insertion order; an AUTO_INCREMENT counter
 * hands out ids and a logical clock stands in for SQL `NOW()`, so that
 * `created_at` grows strictly with each insertion and `updated_at` with
 * each write. Whether the database server can be reached is a parameter
 * of every query.
 */
module Store {
  import opened Wrappers
  import opened Strings
  import Sequences

  /** The five columns a caller supplies (`Omit<Product, 'id' | 'created_at' | 'updated_at'>`). */
  datatype Fields = Fields(
    name: string,
    description: string,
    imageUrl: string,
    stockQuantity: int,
    category: string)

  /** What `createProduct` hands back, and what the dashboard lists: the fields and the id. */
  datatype Product = Product(id: nat, fields: Fields)

  /** A stored row; `createdAt` and `updatedAt` are readings of the logical clock. */
  datatype Row = Row(id: nat, fields: Fields, createdAt: nat, updatedAt: nat)

  /** The state of the connection to the database server for one query. */
  datatype Link = Up | Down(message: string)

  /** Why a store operation threw. */
  datatype StoreError =
    | Unreachable(message: string)  // the driver's error, with its message
    | NoSuchTable                   // a query on `products` before CREATE TABLE
    | NameTaken                     // the pre-check of createProduct found the name
    | DuplicateEntry(name: string)  // the UNIQUE index on `name` refused an UPDATE

  const NameTakenMessage := "Product with this name already exists"

  /** The `message` of the JavaScript `Error` the store throws. */
  function Message(e: StoreError): string {
    match e
    case Unreachable(m) => m
    case NoSuchTable => "Table 'inventario.products' doesn't exist"
    case NameTaken => NameTakenMessage
    case DuplicateEntry(n) => "Duplicate entry '" + n + "' for key 'products.name'"
  }

  /** Some row carries this name (`SELECT id FROM products WHERE name = ?` is not empty). */
  predicate HasName(rows: seq<Row>, name: string) {
    exists i | 0 <= i < |rows| :: rows[i].fields.name == name
  }

  /** Some row carries this id. */
  predicate HasId(rows: seq<Row>, id: nat) {
    exists i | 0 <= i < |rows| :: rows[i].id == id
  }

  /** A row other than the one with id `id` carries this name. */
  predicate NameHeldByOther(rows: seq<Row>, id: nat, name: string) {
    exists i | 0 <= i < |rows| :: rows[i].id != id && rows[i].fields.name == name
  }

  /** No two rows share a name: the UNIQUE constraint on `name`. */
  predicate UniqueNames(rows: seq<Row>) {
    forall i, j | 0 <= i < j < |rows| :: rows[i].fields.name != rows[j].fields.name
  }

  /** Later insertions have larger ids and later creation times. */
  predicate InsertionOrder(rows: seq<Row>) {
    forall i, j | 0 <= i < j < |rows| :: rows[i].id < rows[j].id && rows[i].createdAt < rows[j].createdAt
  }

  /** Ordered by `created_at` descending. */
  predicate NewestFirstOrder(rows: seq<Row>) {
    forall i, j | 0 <= i < j < |rows| :: rows[i].createdAt > rows[j].createdAt
  }

  /** `getProducts`: `SELECT * FROM products ORDER BY created_at DESC`, the rows last-inserted first. */
  function Listing(rows: seq<Row>): (r: seq<Row>)
    ensures |r| == |rows|
    ensures forall k | 0 <= k < |r| :: r[k] == rows[|rows| - 1 - k]
  {
    if rows == [] then [] else [rows[|rows| - 1]] + Listing(rows[..|rows| - 1])
  }

  /** The listing holds every row, each once, newest first. */
  lemma ListingIsOrdered(rows: seq<Row>)
    requires InsertionOrder(rows)
    ensures NewestFirstOrder(Listing(rows))
    ensures |Listing(rows)| == |rows|
    ensures forall x :: x in Listing(rows) <==> x in rows
  {
    var r := Listing(rows);
    forall x | x in rows ensures x in r {
      var k :| 0 <= k < |rows| && rows[k] == x;
      assert r[|rows| - 1 - k] == x;
    }
  }

  /** The search condition: `name`, `description` or `category` contains the term. */
  predicate Matches(row: Row, term: string) {
    Contains(row.fields.name, term) || Contains(row.fields.description, term) || Contains(row.fields.category, term)
  }

  function MatchesTerm(term: string): Row -> bool {
    (row: Row) => Matches(row, term)
  }

  /** `getProductsBySearch`: the matching rows, in the order of the listing. */
  function Search(rows: seq<Row>, term: string): seq<Row> {
    Sequences.Filter(Listing(rows), MatchesTerm(term))
  }

  /** The search result is exactly the matching rows, newest first. */
  lemma SearchIsFilteredListing(rows: seq<Row>, term: string)
    requires InsertionOrder(rows)
    ensures NewestFirstOrder(Search(rows, term))
    ensures forall x :: x in Search(rows, term) <==> x in rows && Matches(x, term)
  {
    ListingIsOrdered(rows);
    var newer := (a: Row, b: Row) => a.createdAt > b.createdAt;
    assert Sequences.Ordered(Listing(rows), newer);
    Sequences.FilterKeepsOrder(Listing(rows), MatchesTerm(term), newer);
    var r := Search(rows, term);
    forall x ensures x in r <==> x in rows && Matches(x, term) {
      if x in rows && Matches(x, term) {
        var k :| 0 <= k < |Listing(rows)| && Listing(rows)[k] == x;
        assert MatchesTerm(term)(Listing(rows)[k]);
      }
      if x in r {
        var k :| 0 <= k < |r| && r[k] == x;
        assert MatchesTerm(term)(r[k]);
      }
    }
  }

  /** A new row heads the next search result exactly when it matches the term. */
  lemma {:induction false} SearchAfterInsert(rows: seq<Row>, row: Row, term: string)
    ensures Search(rows + [row], term)
         == (if Matches(row, term) then [row] else []) + Search(rows, term)
  {
    var s := rows + [row];
    assert s[..|s| - 1] == rows;
    assert Listing(s) == [row] + Listing(rows);
    Sequences.FilterConcat([row], Listing(rows), MatchesTerm(term));
    assert [row][1..] == [];
  }

  /** `deleteProduct`'s `WHERE id <> ?` survivors. */
  function IdIsNot(id: nat): Row -> bool {
    (row: Row) => row.id != id
  }

  /**
   * The rows after the UPDATE of lib/database.ts:74-77, by position: only
   * the row with the id changes, and it changes only its columns and its
   * `updated_at`.
   */
  function Replace(rows: seq<Row>, id: nat, fields: Fields, now: nat): (r: seq<Row>)
    ensures |r| == |rows|
    ensures forall i | 0 <= i < |rows| :: r[i].id == rows[i].id && r[i].createdAt == rows[i].createdAt
    ensures forall i | 0 <= i < |rows| && rows[i].id != id :: r[i] == rows[i]
    ensures forall i | 0 <= i < |rows| && rows[i].id == id :: r[i].fields == fields && r[i].updatedAt == now
    ensures HasId(r, id) <==> HasId(rows, id)
  {
    seq(|rows|, i requires 0 <= i < |rows| =>
      if rows[i].id == id then rows[i].(fields := fields, updatedAt := now) else rows[i])
  }

  class ProductTable {
    /** Whether CREATE TABLE has run. */
    var tableExists: bool
    /** The rows, in insertion order. */
    var rows: seq<Row>
    /** The AUTO_INCREMENT counter: the id the next insertion receives. */
    var nextId: nat
    /** The logical clock: the reading the next write receives. */
    var clock: nat

    /** The table's invariant. */
    ghost predicate Valid()
      reads this
    {
      && (!tableExists ==> rows == [] && nextId == 1)
      && 1 <= nextId
      && (forall i | 0 <= i < |rows| ::
            1 <= rows[i].id < nextId && rows[i].createdAt <= rows[i].updatedAt < clock)
      && InsertionOrder(rows)
      && UniqueNames(rows)
    }

    /** A database in which the `products` table has not yet been created. */
    constructor ()
      ensures Valid() && !tableExists && rows == [] && nextId == 1 && clock == 0
    {
      tableExists := false;
      rows := [];
      nextId := 1;
      clock := 0;
    }

    /** `initializeDatabase`: CREATE TABLE IF NOT EXISTS. */
    method Initialize(link: Link) returns (err: Option<StoreError>)
      requires Valid()
      modifies this
      ensures Valid()
      ensures link.Down? ==> err == Some(Unreachable(link.message)) && unchanged(this)
      ensures link.Up? ==> err == None && tableExists
      ensures link.Up? && old(tableExists) ==> unchanged(this)
      ensures link.Up? && !old(tableExists) ==> rows == [] && nextId == 1 && clock == old(clock)
    {
      if link.Down? {
        return Some(Unreachable(link.message));
      }
      if !tableExists {
        tableExists := true;
        rows := [];
        nextId := 1;
      }
      err := None;
    }

    /** `getProducts`. */
    method GetProducts(link: Link) returns (r: Result<seq<Row>, StoreError>)
      requires Valid()
      ensures link.Down? ==> r == Err(Unreachable(link.message))
      ensures link.Up? && !tableExists ==> r == Err(NoSuchTable)
      ensures link.Up? && tableExists ==> r == Ok(Listing(rows))
      ensures r.Ok? ==> NewestFirstOrder(r.value) && |r.value| == |rows|
      ensures r.Ok? ==> forall x :: x in r.value <==> x in rows
    {
      if link.Down? {
        return Err(Unreachable(link.message));
      }
      if !tableExists {
        return Err(NoSuchTable);
      }
      ListingIsOrdered(rows);
      r := Ok(Listing(rows));
    }

    /** `getProductsBySearch`. */
    method GetProductsBySearch(term: string, link: Link) returns (r: Result<seq<Row>, StoreError>)
      requires Valid()
      ensures link.Down? ==> r == Err(Unreachable(link.message))
      ensures link.Up? && !tableExists ==> r == Err(NoSuchTable)
      ensures link.Up? && tableExists ==> r == Ok(Search(rows, term))
      ensures r.Ok? ==> NewestFirstOrder(r.value)
      ensures r.Ok? ==> forall x :: x in r.value <==> x in rows && Matches(x, term)
    {
      if link.Down? {
        return Err(Unreachable(link.message));
      }
      if !tableExists {
        return Err(NoSuchTable);
      }
      SearchIsFilteredListing(rows, term);
      r := Ok(Search(rows, term));
    }

    /** `createProduct`: reject a known name, otherwise insert one row. */
    method Create(fields: Fields, link: Link) returns (r: Result<Product, StoreError>)
      requires Valid()
      modifies this
      ensures Valid()
      ensures link.Down? ==> r == Err(Unreachable(link.message)) && unchanged(this)
      ensures link.Up? && !old(tableExists) ==> r == Err(NoSuchTable) && unchanged(this)
      ensures link.Up? && old(tableExists) && HasName(old(rows), fields.name) ==>
        r == Err(NameTaken) && unchanged(this)
      ensures link.Up? && old(tableExists) && !HasName(old(rows), fields.name) ==>
        && r == Ok(Product(old(nextId), fields))
        && !HasId(old(rows), old(nextId))
        && rows == old(rows) + [Row(old(nextId), fields, old(clock), old(clock))]
        && nextId == old(nextId) + 1 && clock == old(clock) + 1 && tableExists
    {
      if link.Down? {
        return Err(Unreachable(link.message));
      }
      if !tableExists {
        return Err(NoSuchTable);
      }
      if HasName(rows, fields.name) {
        return Err(NameTaken);
      }
      var id := nextId;
      InsertKeepsInvariant(rows, Row(id, fields, clock, clock));
      rows := rows + [Row(id, fields, clock, clock)];
      nextId := nextId + 1;
      clock := clock + 1;
      r := Ok(Product(id, fields));
    }

    /** `updateProduct`: overwrite the five fields of the row with this id. */
    method Update(id: nat, fields: Fields, link: Link) returns (err: Option<StoreError>)
      requires Valid()
      modifies this
      ensures Valid()
      ensures tableExists == old(tableExists) && nextId == old(nextId)
      ensures link.Down? ==> err == Some(Unreachable(link.message)) && unchanged(this)
      ensures link.Up? && !old(tableExists) ==> err == Some(NoSuchTable) && unchanged(this)
      ensures link.Up? && old(tableExists) && !HasId(old(rows), id) ==> err == None && unchanged(this)
      ensures link.Up? && old(tableExists) && HasId(old(rows), id) && NameHeldByOther(old(rows), id, fields.name) ==>
        err == Some(DuplicateEntry(fields.name)) && unchanged(this)
      ensures link.Up? && old(tableExists) && HasId(old(rows), id) && !NameHeldByOther(old(rows), id, fields.name) ==>
        && err == None
        && rows == Replace(old(rows), id, fields, old(clock))
        && clock == old(clock) + 1
        && forall i | 0 <= i < |rows| && rows[i].id == id ::
             rows[i].createdAt == old(rows)[i].createdAt && rows[i].updatedAt > old(rows)[i].updatedAt
    {
      if link.Down? {
        return Some(Unreachable(link.message));
      }
      if !tableExists {
        return Some(NoSuchTable);
      }
      if !HasId(rows, id) {
        return None;
      }
      if NameHeldByOther(rows, id, fields.name) {
        return Some(DuplicateEntry(fields.name));
      }
      ReplaceKeepsInvariant(rows, id, fields, clock);
      rows := Replace(rows, id, fields, clock);
      clock := clock + 1;
      err := None;
    }

    /** `deleteProduct`: remove the row with this id. */
    method Delete(id: nat, link: Link) returns (err: Option<StoreError>)
      requires Valid()
      modifies this
      ensures Valid()
      ensures tableExists == old(tableExists) && nextId == old(nextId) && clock == old(clock)
      ensures link.Down? ==> err == Some(Unreachable(link.message)) && unchanged(this)
      ensures link.Up? && !old(tableExists) ==> err == Some(NoSuchTable) && unchanged(this)
      ensures link.Up? && old(tableExists) ==> err == None && rows == Sequences.Filter(old(rows), IdIsNot(id))
      ensures link.Up? && old(tableExists) ==> !HasId(rows, id) && forall x :: x in rows <==> x in old(rows) && x.id != id
      ensures link.Up? && old(tableExists) && !HasId(old(rows), id) ==> rows == old(rows)
    {
      if link.Down? {
        return Some(Unreachable(link.message));
      }
      if !tableExists {
        return Some(NoSuchTable);
      }
      var before := rows;
      rows := Sequences.Filter(rows, IdIsNot(id));
      DeleteKeepsInvariant(before, id);
      if !HasId(before, id) {
        Sequences.FilterKeepsAll(before, IdIsNot(id));
      }
      err := None;
    }
  }

  /** Appending a row with a new name, a larger id and a later creation time keeps rows ordered and names unique. */
  lemma InsertKeepsInvariant(rows: seq<Row>, row: Row)
    requires InsertionOrder(rows) && UniqueNames(rows)
    requires !HasName(rows, row.fields.name)
    requires forall i | 0 <= i < |rows| :: rows[i].id < row.id && rows[i].createdAt < row.createdAt
    ensures InsertionOrder(rows + [row]) && UniqueNames(rows + [row])
  {
    var s := rows + [row];
    forall i, j | 0 <= i < j < |s| ensures s[i].fields.name != s[j].fields.name {
      if j == |rows| {
        assert s[i] == rows[i];
      }
    }
  }

  /** An update that takes no other row's name keeps rows ordered and names unique. */
  lemma ReplaceKeepsInvariant(rows: seq<Row>, id: nat, fields: Fields, now: nat)
    requires InsertionOrder(rows) && UniqueNames(rows)
    requires !NameHeldByOther(rows, id, fields.name)
    ensures InsertionOrder(Replace(rows, id, fields, now)) && UniqueNames(Replace(rows, id, fields, now))
  {
    var r := Replace(rows, id, fields, now);
    forall i, j | 0 <= i < j < |r| ensures r[i].fields.name != r[j].fields.name {
      if rows[i].id == id {
        assert rows[j].id != id && rows[j].fields.name != fields.name;
      } else if rows[j].id == id {
        assert rows[i].id != id && rows[i].fields.name != fields.name;
      }
    }
  }

  /** The surviving rows of a delete are the others, in their old order. */
  lemma DeleteKeepsInvariant(rows: seq<Row>, id: nat)
    requires InsertionOrder(rows) && UniqueNames(rows)
    ensures var r := Sequences.Filter(rows, IdIsNot(id));
      && InsertionOrder(r) && UniqueNames(r) && !HasId(r, id)
      && (forall x :: x in r <==> x in rows && x.id != id)
  {
    var r := Sequences.Filter(rows, IdIsNot(id));
    var older := (a: Row, b: Row) => a.id < b.id && a.createdAt < b.createdAt;
    var distinct := (a: Row, b: Row) => a.fields.name != b.fields.name;
    assert Sequences.Ordered(rows, older);
    assert Sequences.Ordered(rows, distinct);
    Sequences.FilterKeepsOrder(rows, IdIsNot(id), older);
    Sequences.FilterKeepsOrder(rows, IdIsNot(id), distinct);
    assert Sequences.Ordered(r, older);
    forall x ensures x in r <==> x in rows && x.id != id {
      if x in rows && x.id != id {
        var k :| 0 <= k < |rows| && rows[k] == x;
        assert IdIsNot(id)(rows[k]);
      }
      if x in r {
        var k :| 0 <= k < |r| && r[k] == x;
        assert IdIsNot(id)(r[k]);
      }
    }
  }
}
