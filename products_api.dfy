/**
 * The collection handlers of app/api/products/route.ts: GET lists or
 * searches, POST validates, fills in defaults and creates.
 */
module ProductsApi {
  import opened Wrappers
  import opened Strings
  import opened Store

  /** The JSON body of a response. */
  datatype Body =
    | Products(rows: seq<Row>)
    | Created(product: Product)
    | Failure(error: string)

  datatype Response = Response(status: int, body: Body)

  /** Which store read a GET performs. */
  datatype Query = ListAll | SearchFor(term: string)

  /**
   * The choice at app/api/products/route.ts:17: the `search` query parameter
   * (`None` when it is absent) is used only when it is truthy.
   */
  function QueryFor(search: Option<string>): (q: Query)
    ensures q.SearchFor? <==> search.Some? && search.value != ""
    ensures q.SearchFor? ==> q.term == search.value
  {
    if search.Some? && search.value != "" then SearchFor(search.value) else ListAll
  }

  /** The rows a query returns from a table whose rows are `rows`. */
  function Answer(q: Query, rows: seq<Row>): seq<Row> {
    match q
    case ListAll => Listing(rows)
    case SearchFor(t) => Search(rows, t)
  }

  const FetchFailed := Response(500, Failure("Failed to fetch products"))

  /**
   * `GET /api/products`: initialize, then search or list; any failure is a
   * 500. `link` serves `initializeDatabase` and `queryLink` the SELECT that
   * follows it, so the connection may fail between the two.
   */
  method Get(db: ProductTable, search: Option<string>, link: Link, queryLink: Link) returns (resp: Response)
    requires db.Valid()
    modifies db
    ensures db.Valid() && db.rows == old(db.rows) && db.nextId == old(db.nextId)
    ensures link.Down? ==> resp == FetchFailed && unchanged(db)
    ensures link.Up? && queryLink.Down? ==> resp == FetchFailed
    ensures link.Up? && queryLink.Up? ==> resp == Response(200, Products(Answer(QueryFor(search), db.rows)))
    ensures link.Up? ==> db.tableExists && db.clock == old(db.clock)
    ensures link.Up? && old(db.tableExists) ==> unchanged(db)
    ensures link.Up? && !old(db.tableExists) ==> db.rows == [] && db.nextId == 1
  {
    var init := db.Initialize(link);
    if init.Some? {
      return FetchFailed;
    }
    var r: Result<seq<Row>, StoreError>;
    if search.Some? && search.value != "" {
      r := db.GetProductsBySearch(search.value, queryLink);
    } else {
      r := db.GetProducts(queryLink);
    }
    if r.Err? {
      return FetchFailed;
    }
    resp := Response(200, Products(r.value));
  }

  /**
   * The `stock_quantity` member of a request body: `Undefined` when the key
   * is missing; otherwise what `parseInt` reads from the value (`None` for
   * `NaN`, which is also what `null` gives).
   */
  datatype StockInput = Undefined | Given(parsed: Option<int>)

  /** A POST body; a text member is `None` when it is missing or `null`. */
  datatype CreateRequest = CreateRequest(
    name: Option<string>,
    description: Option<string>,
    imageUrl: Option<string>,
    stockQuantity: StockInput,
    category: Option<string>)

  /** A text member is truthy: present and not the empty string. */
  predicate Truthy(s: Option<string>) {
    s.Some? && s.value != ""
  }

  /** The guard of app/api/products/route.ts:40. */
  predicate MissingRequiredFields(req: CreateRequest) {
    !Truthy(req.name) || !Truthy(req.description) || !Truthy(req.category) || req.stockQuantity.Undefined?
  }

  /** The object handed to `createProduct`: `image_url || ""` and `parseInt(stock_quantity) || 0`. */
  function ToFields(req: CreateRequest): (f: Fields)
    requires !MissingRequiredFields(req)
    ensures f.name == req.name.value && f.description == req.description.value && f.category == req.category.value
    ensures f.imageUrl == "" <==> !Truthy(req.imageUrl)
    ensures Truthy(req.imageUrl) ==> f.imageUrl == req.imageUrl.value
    ensures f.stockQuantity == 0 <==> req.stockQuantity.parsed == None || req.stockQuantity.parsed == Some(0)
    ensures f.stockQuantity != 0 ==> req.stockQuantity.parsed == Some(f.stockQuantity)
  {
    Fields(
      req.name.value,
      req.description.value,
      if Truthy(req.imageUrl) then req.imageUrl.value else "",
      ParsedOrZero(req.stockQuantity.parsed),
      req.category.value)
  }

  const ConflictMessage := "Producto con este nombre ya existe"

  /** The failure answer of POST for anything it does not expect. */
  const CreateFailed := Response(500, Failure("Failed to create product"))

  /**
   * The catch block of POST as written: 409 only for an error whose message
   * is the Spanish text, 500 for everything else.
   */
  function CreateFailure(e: StoreError): (resp: Response)
    ensures resp.status == 409 <==> Message(e) == ConflictMessage
    ensures resp.status == 409 ==> resp.body == Failure(ConflictMessage)
    ensures resp.status != 409 ==> resp == CreateFailed
  {
    if Message(e) == ConflictMessage then Response(409, Failure(ConflictMessage))
    else CreateFailed
  }

  /**
   * `POST /api/products`. `body` is `None` when `request.json()` throws (no
   * JSON) or the JSON is `null`, so that destructuring it throws: both land
   * in the catch block, whose message test they fail. `link` serves
   * `initializeDatabase` and `queryLink` the queries of `createProduct`.
   */
  method Post(db: ProductTable, body: Option<CreateRequest>, link: Link, queryLink: Link) returns (resp: Response)
    requires db.Valid()
    modifies db
    ensures db.Valid() && db.nextId >= old(db.nextId)
    ensures body.None? ==> resp == CreateFailed && unchanged(db)
    ensures body.Some? && MissingRequiredFields(body.value) ==>
      resp == Response(400, Failure("Missing required fields")) && unchanged(db)
    ensures body.Some? && !MissingRequiredFields(body.value) && link.Down? ==>
      resp == CreateFailure(Unreachable(link.message)) && unchanged(db)
    ensures body.Some? && !MissingRequiredFields(body.value) && link.Up? ==> db.tableExists
    ensures body.Some? && !MissingRequiredFields(body.value) && link.Up? && queryLink.Down? ==>
      && resp == CreateFailure(Unreachable(queryLink.message))
      && db.rows == old(db.rows) && db.clock == old(db.clock)
      && (old(db.tableExists) ==> unchanged(db))
    ensures body.Some? && !MissingRequiredFields(body.value) && link.Up? && queryLink.Up? && HasName(old(db.rows), ToFields(body.value).name) ==>
      resp == CreateFailure(NameTaken) && unchanged(db)
    ensures body.Some? && !MissingRequiredFields(body.value) && link.Up? && queryLink.Up? && !HasName(old(db.rows), ToFields(body.value).name) ==>
      && resp.status == 201 && resp.body.Created?
      && resp.body.product.id == old(db.nextId) && resp.body.product.fields == ToFields(body.value)
      && !HasId(old(db.rows), resp.body.product.id)
      && db.rows == old(db.rows) + [Row(resp.body.product.id, ToFields(body.value), old(db.clock), old(db.clock))]
      && db.nextId == resp.body.product.id + 1 && db.clock == old(db.clock) + 1
  {
    if body.None? {
      return CreateFailed;
    }
    var req := body.value;
    if MissingRequiredFields(req) {
      return Response(400, Failure("Missing required fields"));
    }
    var init := db.Initialize(link);
    if init.Some? {
      return CreateFailure(init.value);
    }
    var created := db.Create(ToFields(req), queryLink);
    if created.Err? {
      return CreateFailure(created.error);
    }
    resp := Response(201, Created(created.value));
  }

  /** As written, a duplicate name is answered with 500 and never with 409. */
  lemma DuplicateNameIsAnsweredWith500()
    ensures CreateFailure(NameTaken) == CreateFailed
  {
    assert NameTakenMessage[7] != ConflictMessage[7];
  }

  /** As written, no error of the store itself reaches the 409 branch; only a driver message equal to the Spanish text would. */
  lemma ConflictOnlyForThatDriverMessage(e: StoreError)
    ensures CreateFailure(e).status == 409 <==> e == Unreachable(ConflictMessage)
  {
    match e
    case Unreachable(m) =>
    case NoSuchTable =>
      assert Message(e)[0] != ConflictMessage[0];
    case NameTaken =>
      assert Message(e)[7] != ConflictMessage[7];
    case DuplicateEntry(n) =>
      assert Message(e)[0] != ConflictMessage[0];
  }

  /** The evidently intended mapping: the store's duplicate-name error is a conflict. */
  function CreateFailureIntended(e: StoreError): (resp: Response)
    ensures resp.status == 409 <==> e == NameTaken
    ensures resp.status == 409 ==> resp.body == Failure(ConflictMessage)
    ensures resp.status != 409 ==> resp == CreateFailed
  {
    if e == NameTaken then Response(409, Failure(ConflictMessage))
    else CreateFailed
  }

  /**
   * Putting the intended mapping in place of the written one changes the
   * answer to the duplicate-name error and to nothing else the store raises.
   */
  lemma IntendedDiffersOnlyOnDuplicates(e: StoreError)
    requires e != Unreachable(ConflictMessage)
    ensures CreateFailureIntended(e) != CreateFailure(e) <==> e == NameTaken
  {
    ConflictOnlyForThatDriverMessage(e);
  }
}
