/**
 * The inventory dashboard of app/protected/page.tsx: the stock badge, the
 * URL the list is fetched from, and the page state its handlers update.
 * Each handler runs to completion in one step; what the network answered
 * is a parameter.
 */
module Dashboard {
  import opened Wrappers
  import opened Store
  import Sequences
  import Urls
  import ProductsApi

  /** The badge variants the stock status uses. */
  datatype Variant = Destructive | Secondary | Default

  datatype StockStatus = StockStatus(text: string, variant: Variant)

  /** `getStockStatus`: the badge shown for a stock quantity. */
  function GetStockStatus(quantity: int): (s: StockStatus)
    ensures s.text == "Sin Stock" <==> quantity == 0
    ensures s.text == "Bajo Stock" <==> quantity != 0 && quantity < 10
    ensures s.text == "En Stock" <==> quantity >= 10
    ensures s.variant == Destructive <==> s.text == "Sin Stock"
    ensures s.variant == Secondary <==> s.text == "Bajo Stock"
    ensures s.variant == Default <==> s.text == "En Stock"
  {
    if quantity == 0 then StockStatus("Sin Stock", Destructive)
    else if quantity < 10 then StockStatus("Bajo Stock", Secondary)
    else StockStatus("En Stock", Default)
  }

  /** A larger quantity never shows a worse badge, except that negative quantities count as low stock rather than none. */
  lemma StockStatusMonotone(lo: int, hi: int)
    requires 0 <= lo <= hi
    ensures GetStockStatus(lo).text == "En Stock" ==> GetStockStatus(hi).text == "En Stock"
    ensures GetStockStatus(hi).text == "Sin Stock" ==> GetStockStatus(lo).text == "Sin Stock"
  {
  }

  const ListPath := "/api/products"

  /**
   * The URL `fetchProducts` requests: the search term, when there is one,
   * goes in the `search` parameter, encoded so that the route reads back
   * exactly that term. An absent term is passed as `""`.
   */
  function ProductsUrl(search: string): (url: string)
    ensures '?' in url <==> search != ""
    ensures Urls.SearchParam(url, "search") == if search == "" then None else Some(search)
  {
    if search == "" then
      Urls.NoQuery(ListPath, "search");
      ListPath
    else
      var url := ListPath + "?" + "search" + "=" + Urls.EncodeURIComponent(search);
      Urls.ReadBack(ListPath, "search", search);
      assert url[|ListPath|] == '?';
      url
  }

  /** The route's GET lists everything for the URL of an empty term, and searches for the term otherwise. */
  lemma RouteAnswersThePageQuery(search: string)
    ensures ProductsApi.QueryFor(Urls.SearchParam(ProductsUrl(search), "search"))
         == if search == "" then ProductsApi.ListAll else ProductsApi.SearchFor(search)
  {
  }

  /** A row as the dashboard holds it: the id and the five columns. */
  function View(row: Row): Product {
    Product(row.id, row.fields)
  }

  /** The dashboard's copy of a list of rows. */
  function Shown(rows: seq<Row>): (ps: seq<Product>)
    ensures |ps| == |rows|
    ensures forall k | 0 <= k < |ps| :: ps[k] == View(rows[k])
  {
    if rows == [] then [] else [View(rows[0])] + Shown(rows[1..])
  }

  function ProductIdIsNot(id: nat): Product -> bool {
    (p: Product) => p.id != id
  }

  /** `errorData.error || fallback`: a reply without an error text falls back to the handler's own message. */
  function ErrorText(reported: string, fallback: string): (t: string)
    ensures reported != "" ==> t == reported
    ensures reported == "" ==> t == fallback
  {
    if reported != "" then reported else fallback
  }

  const LoadFailedText := "Failed to load products"
  const CreateFailedText := "Failed to create product"
  const UpdateFailedText := "Failed to update product"
  const DeleteFailedText := "Failed to delete product"

  /**
   * Prepending the created product gives the list a refetch would show:
   * the new row is the newest one.
   */
  lemma CreateMatchesRefetch(rows: seq<Row>, row: Row)
    ensures Shown(Listing(rows + [row])) == [View(row)] + Shown(Listing(rows))
  {
    assert (rows + [row])[..|rows|] == rows;
  }

  /**
   * Filtering the deleted id out of the shown listing gives the list a
   * refetch after the store's delete would show.
   */
  lemma {:induction false} DeleteMatchesRefetch(rows: seq<Row>, id: nat)
    ensures Sequences.Filter(Shown(Listing(rows)), ProductIdIsNot(id))
         == Shown(Listing(Sequences.Filter(rows, IdIsNot(id))))
  {
    if rows != [] {
      var init, last := rows[..|rows| - 1], rows[|rows| - 1];
      assert rows == init + [last];
      DeleteMatchesRefetch(init, id);
      Sequences.FilterConcat(init, [last], IdIsNot(id));
      var kept := Sequences.Filter(init, IdIsNot(id));
      assert Listing(rows) == [last] + Listing(init);
      assert Shown(Listing(rows)) == [View(last)] + Shown(Listing(init));
      if last.id != id {
        assert Sequences.Filter([last], IdIsNot(id)) == [last];
        CreateMatchesRefetch(kept, last);
      } else {
        assert Sequences.Filter([last], IdIsNot(id)) == [];
        assert kept + [] == kept;
      }
    }
  }

  /** The state of `ProtectedPage`, less the signed-in user. */
  class Page {
    var products: seq<Product>
    var searchTerm: string
    var isLoading: bool
    var isSubmitting: bool
    var isModalOpen: bool
    var editingProduct: Option<Product>
    var deletingProduct: Option<Product>
    var isDeleteConfirmOpen: bool
    var error: Option<string>

    /** What the `finally` of `handleSubmit` leaves behind, whatever the action did. */
    predicate Settled()
      reads this
    {
      !isSubmitting && editingProduct == None && deletingProduct == None && !isDeleteConfirmOpen
    }

    /** The initial state, before the first fetch completes. */
    constructor ()
      ensures products == [] && searchTerm == "" && isLoading && !isModalOpen
      ensures Settled() && error == None
    {
      products := [];
      searchTerm := "";
      isLoading := true;
      isSubmitting := false;
      isModalOpen := false;
      editingProduct := None;
      deletingProduct := None;
      isDeleteConfirmOpen := false;
      error := None;
    }

    /**
     * `fetchProducts`: request the list for `search` and show it, or show
     * the load error and keep the old list. `response` is the parsed body of
     * a successful response, `None` when the request failed.
     */
    method FetchProducts(search: string, response: Option<seq<Product>>) returns (url: string)
      modifies this`products, this`isLoading, this`error
      ensures url == ProductsUrl(search)
      ensures !isLoading
      ensures response.Some? ==> products == response.value && error == None
      ensures response.None? ==> products == old(products) && error == Some(LoadFailedText)
    {
      isLoading := true;
      error := None;
      url := ProductsUrl(search);
      if response.Some? {
        products := response.value;
      } else {
        error := Some(LoadFailedText);
      }
      isLoading := false;
    }

    /** The `onChange` of the search input. */
    method SetSearchTerm(value: string)
      modifies this`searchTerm
      ensures searchTerm == value
    {
      searchTerm := value;
    }

    /** `handleSearch`: fetch the list for the term in the search box. */
    method HandleSearch(response: Option<seq<Product>>) returns (url: string)
      modifies this`products, this`isLoading, this`error
      ensures url == ProductsUrl(searchTerm)
      ensures !isLoading
      ensures response.Some? ==> products == response.value && error == None
      ensures response.None? ==> products == old(products) && error == Some(LoadFailedText)
    {
      url := FetchProducts(searchTerm, response);
    }

    /** The `Limpiar` button: empty the search box and fetch the whole list. */
    method ClearSearch(response: Option<seq<Product>>) returns (url: string)
      modifies this`searchTerm, this`products, this`isLoading, this`error
      ensures searchTerm == "" && url == ListPath
      ensures !isLoading
      ensures response.Some? ==> products == response.value && error == None
      ensures response.None? ==> products == old(products) && error == Some(LoadFailedText)
    {
      searchTerm := "";
      url := FetchProducts("", response);
    }

    /** The `finally` of `handleSubmit`, with `closeDeleteConfirm`. */
    method Settle()
      modifies this`isSubmitting, this`editingProduct, this`deletingProduct, this`isDeleteConfirmOpen
      ensures Settled()
    {
      isSubmitting := false;
      editingProduct := None;
      CloseDeleteConfirm();
    }

    /**
     * `handleCreateProduct`: `reply` is the created product, or the error
     * text of a failed response (`""` when it had none). Success puts the
     * product at the head of the list and closes the dialog; failure shows
     * the error and keeps the list.
     */
    method HandleCreateProduct(reply: Result<Product, string>)
      modifies this
      ensures Settled()
      ensures searchTerm == old(searchTerm) && isLoading == old(isLoading)
      ensures reply.Ok? ==> products == [reply.value] + old(products) && !isModalOpen && error == None
      ensures reply.Err? ==> products == old(products) && isModalOpen == old(isModalOpen)
      ensures reply.Err? ==> error == Some(ErrorText(reply.error, CreateFailedText))
    {
      isSubmitting := true;
      error := None;
      if reply.Ok? {
        products := [reply.value] + products;
        isModalOpen := false;
      } else {
        error := Some(ErrorText(reply.error, CreateFailedText));
      }
      Settle();
    }

    /**
     * `handleUpdateProduct`: nothing happens unless a product is being
     * edited. A successful update refetches the list for the current search
     * term (`refetch` is that fetch's outcome) and closes the dialog; a
     * failed one shows the error. `url` is the refetch's URL, if any.
     */
    method HandleUpdateProduct(reply: Result<(), string>, refetch: Option<seq<Product>>) returns (url: Option<string>)
      modifies this
      ensures old(editingProduct) == None ==> unchanged(this) && url == None
      ensures old(editingProduct) != None ==> Settled() && searchTerm == old(searchTerm)
      ensures old(editingProduct) != None && reply.Ok? ==>
        && url == Some(ProductsUrl(searchTerm))
        && !isModalOpen && !isLoading
        && (refetch.Some? ==> products == refetch.value && error == None)
        && (refetch.None? ==> products == old(products) && error == Some(LoadFailedText))
      ensures old(editingProduct) != None && reply.Err? ==>
        && url == None
        && products == old(products) && isModalOpen == old(isModalOpen) && isLoading == old(isLoading)
        && error == Some(ErrorText(reply.error, UpdateFailedText))
    {
      if editingProduct == None {
        return None;
      }
      isSubmitting := true;
      error := None;
      if reply.Ok? {
        var fetched := RefreshAfterUpdate(refetch);
        url := Some(fetched);
      } else {
        url := None;
        error := Some(ErrorText(reply.error, UpdateFailedText));
      }
      Settle();
    }

    /** What a successful update does before the cleanup: refetch for the current term and close the dialog. */
    method RefreshAfterUpdate(refetch: Option<seq<Product>>) returns (url: string)
      modifies this`products, this`isLoading, this`error, this`isModalOpen
      ensures url == ProductsUrl(searchTerm) && !isModalOpen && !isLoading
      ensures refetch.Some? ==> products == refetch.value && error == None
      ensures refetch.None? ==> products == old(products) && error == Some(LoadFailedText)
    {
      url := FetchProducts(searchTerm, refetch);
      isModalOpen := false;
    }

    /**
     * `handleDeleteProduct`: nothing happens unless a product awaits
     * deletion. Success drops every entry with its id from the list, keeping
     * the others in order; failure shows the error and keeps the list.
     */
    method HandleDeleteProduct(reply: Result<(), string>)
      modifies this
      ensures old(deletingProduct) == None ==> unchanged(this)
      ensures old(deletingProduct) != None ==>
        && Settled()
        && searchTerm == old(searchTerm) && isLoading == old(isLoading) && isModalOpen == old(isModalOpen)
      ensures old(deletingProduct) != None && reply.Ok? ==>
        && products == Sequences.Filter(old(products), ProductIdIsNot(old(deletingProduct).value.id))
        && error == None
      ensures old(deletingProduct) != None && reply.Err? ==>
        products == old(products) && error == Some(ErrorText(reply.error, DeleteFailedText))
    {
      if deletingProduct == None {
        return;
      }
      var target := deletingProduct.value;
      isSubmitting := true;
      error := None;
      if reply.Ok? {
        products := Sequences.Filter(products, ProductIdIsNot(target.id));
      } else {
        error := Some(ErrorText(reply.error, DeleteFailedText));
      }
      Settle();
    }

    /** `handleEdit`: open the dialog on a product. */
    method HandleEdit(product: Product)
      modifies this`editingProduct, this`isModalOpen
      ensures editingProduct == Some(product) && isModalOpen
    {
      editingProduct := Some(product);
      isModalOpen := true;
    }

    /** `openDeleteConfirm`: ask before deleting a product. */
    method OpenDeleteConfirm(product: Product)
      modifies this`deletingProduct, this`isDeleteConfirmOpen
      ensures deletingProduct == Some(product) && isDeleteConfirmOpen
    {
      deletingProduct := Some(product);
      isDeleteConfirmOpen := true;
    }

    /** `closeDeleteConfirm`. */
    method CloseDeleteConfirm()
      modifies this`deletingProduct, this`isDeleteConfirmOpen
      ensures deletingProduct == None && !isDeleteConfirmOpen
    {
      deletingProduct := None;
      isDeleteConfirmOpen := false;
    }

    /** The form's `onCancel`: close the dialog and stop editing. */
    method CancelForm()
      modifies this`isModalOpen, this`editingProduct
      ensures !isModalOpen && editingProduct == None
    {
      isModalOpen := false;
      editingProduct := None;
    }
  }
}
