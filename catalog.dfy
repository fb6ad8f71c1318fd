/** The product catalog as ProductsController reads and writes it: a map from product id
    to product row. Rows are never removed; deleting a product only clears its active flag. */
module Catalog {
  import opened Models

  /** The products the public listing returns: exactly the active rows, unchanged. */
  function ActiveProducts(c: Catalog): (r: Catalog)
    ensures r.Keys <= c.Keys
    ensures forall id | id in c :: id in r <==> c[id].isActive
    ensures forall id | id in r :: r[id] == c[id]
  {
    map id | id in c && c[id].isActive :: c[id]
  }

  /** The administrator's listing: every row, active or not; other roles are refused. */
  function AllProducts(caller: Caller, c: Catalog): (r: Result<Catalog>)
    ensures r.Success? <==> IsAdmin(caller)
    ensures r.Success? ==> r.value.Keys == c.Keys && forall id | id in c :: r.value[id] == c[id]
    ensures r.Failure? ==> r.error == Forbidden
  {
    if IsAdmin(caller) then Success(c) else Failure(Forbidden)
  }

  /** Lookup by id, whatever the active flag. */
  function FindProduct(c: Catalog, id: int): (r: Result<Product>)
    ensures r.Success? <==> id in c
    ensures r.Success? ==> r.value == c[id]
    ensures r.Failure? ==> r.error == NotFound
  {
    if id in c then Success(c[id]) else Failure(NotFound)
  }

  /** The fields a ProductDto carries, read back from a row. */
  function ToDto(p: Product): ProductDto
  {
    ProductDto(p.name, p.description, p.price, p.stock, p.isActive)
  }

  /** The row CreateProduct inserts: the request's fields under a generated id and timestamp. */
  function NewProduct(id: int, dto: ProductDto, createdAt: int): (p: Product)
    ensures ToDto(p) == dto
    ensures p.id == id && p.createdAt == createdAt
  {
    Product(id, dto.name, dto.description, dto.price, dto.stock, dto.isActive, createdAt)
  }

  /** UpdateProduct's field assignments: the five request fields replace the row's, id and
      creation time stay. */
  function Overwrite(p: Product, dto: ProductDto): (r: Product)
    ensures ToDto(r) == dto
    ensures r.id == p.id && r.createdAt == p.createdAt
  {
    p.(name := dto.name, description := dto.description, price := dto.price,
       stock := dto.stock, isActive := dto.isActive)
  }

  /** Writing back a row's own fields changes nothing. */
  lemma OverwriteWithOwnFields(p: Product)
    ensures Overwrite(p, ToDto(p)) == p
  {
  }

  /** What DeleteProduct answers when the row exists. */
  datatype Deletion = Deactivated | DeactivatedWithOrders

  /** Soft delete: the row stays, only its active flag is cleared. */
  function Deactivate(c: Catalog, id: int): (r: Catalog)
    requires id in c
    ensures r.Keys == c.Keys
    ensures r[id] == c[id].(isActive := false)
    ensures forall other | other in c && other != id :: r[other] == c[other]
  {
    c[id := c[id].(isActive := false)]
  }

  /** Whether some stored order has a line for product `pid` (the product's OrderItems). */
  predicate HasOrderItems(ledger: Ledger, pid: int)
  {
    exists id | id in ledger :: exists k | 0 <= k < |ledger[id].items| :: ledger[id].items[k].productId == pid
  }

  /** After a soft delete the product leaves the public listing but stays in the
      administrator's listing and is still found by id; no other row's listing changes. */
  lemma DeactivatedIsHiddenButKept(caller: Caller, c: Catalog, id: int)
    requires id in c && IsAdmin(caller)
    ensures id !in ActiveProducts(Deactivate(c, id))
    ensures id in AllProducts(caller, Deactivate(c, id)).value
    ensures FindProduct(Deactivate(c, id), id) == Success(c[id].(isActive := false))
    ensures forall other | other != id :: other in ActiveProducts(Deactivate(c, id)) <==> other in ActiveProducts(c)
    ensures |Deactivate(c, id)| == |c|
  {
    assert Deactivate(c, id).Keys == c.Keys;
  }

  /** A created product is found under its new id with the request's fields, and is listed
      publicly exactly when the request marked it active. */
  lemma CreatedIsFound(c: Catalog, id: int, dto: ProductDto, createdAt: int)
    requires id !in c
    ensures FindProduct(c[id := NewProduct(id, dto, createdAt)], id).Success?
    ensures ToDto(FindProduct(c[id := NewProduct(id, dto, createdAt)], id).value) == dto
    ensures id in ActiveProducts(c[id := NewProduct(id, dto, createdAt)]) <==> dto.isActive
    ensures forall other | other != id :: other in ActiveProducts(c[id := NewProduct(id, dto, createdAt)]) <==> other in ActiveProducts(c)
  {
  }

  /** An updated product reads back with the request's fields and its old id and timestamp. */
  lemma UpdatedIsFound(c: Catalog, id: int, dto: ProductDto)
    requires id in c
    ensures FindProduct(c[id := Overwrite(c[id], dto)], id).Success?
    ensures ToDto(FindProduct(c[id := Overwrite(c[id], dto)], id).value) == dto
    ensures FindProduct(c[id := Overwrite(c[id], dto)], id).value.createdAt == c[id].createdAt
    ensures id in ActiveProducts(c[id := Overwrite(c[id], dto)]) <==> dto.isActive
  {
  }
}
