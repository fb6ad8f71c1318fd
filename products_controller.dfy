/** ProductsController: the catalog endpoints that change rows. The read-only endpoints
    (GetProducts, GetAllProductsForAdmin, GetProduct) are the functions ActiveProducts,
    AllProducts and FindProduct of module Catalog applied to `context.products`. */
module Products {
  import opened Models
  import opened Catalog
  import opened Data

  class ProductsController {
    const context: AppDbContext

    constructor (context: AppDbContext)
      ensures this.context == context
    {
      this.context := context;
    }

    /** POST: administrators only; inserts the request's product under the next id. */
    method CreateProduct(caller: Caller, dto: ProductDto, createdAt: int) returns (r: Result<Product>)
      requires context.Valid()
      modifies context
      ensures context.Valid()
      ensures context.orders == old(context.orders) && context.nextOrderId == old(context.nextOrderId)
      ensures !IsAdmin(caller) ==>
        && r == Failure(Forbidden)
        && context.products == old(context.products)
        && context.nextProductId == old(context.nextProductId)
      ensures IsAdmin(caller) ==>
        && r == Success(NewProduct(old(context.nextProductId), dto, createdAt))
        && r.value.id !in old(context.products)
        && context.products == old(context.products)[r.value.id := r.value]
        && context.nextProductId == old(context.nextProductId) + 1
    {
      if !IsAdmin(caller) {
        return Failure(Forbidden);
      }
      var product := NewProduct(context.nextProductId, dto, createdAt);
      context.products := context.products[product.id := product];
      context.nextProductId := context.nextProductId + 1;
      r := Success(product);
    }

    /** PUT: administrators only; 404 for an absent id; otherwise the five request fields
        overwrite the row's, which keeps its id and creation time. */
    method UpdateProduct(caller: Caller, id: int, dto: ProductDto) returns (r: Result<Product>)
      requires context.Valid()
      modifies context
      ensures context.Valid()
      ensures context.orders == old(context.orders)
      ensures context.nextProductId == old(context.nextProductId) && context.nextOrderId == old(context.nextOrderId)
      ensures !IsAdmin(caller) ==> r == Failure(Forbidden) && context.products == old(context.products)
      ensures IsAdmin(caller) && id !in old(context.products) ==>
        r == Failure(NotFound) && context.products == old(context.products)
      ensures IsAdmin(caller) && id in old(context.products) ==>
        && r == Success(Overwrite(old(context.products)[id], dto))
        && context.products == old(context.products)[id := r.value]
    {
      if !IsAdmin(caller) {
        return Failure(Forbidden);
      }
      if id !in context.products {
        return Failure(NotFound);
      }
      var product := Overwrite(context.products[id], dto);
      context.products := context.products[id := product];
      r := Success(product);
    }

    /** DELETE: administrators only; 404 for an absent id; otherwise a soft delete in both
        branches, which differ only in the message. */
    method DeleteProduct(caller: Caller, id: int) returns (r: Result<Deletion>)
      requires context.Valid()
      modifies context
      ensures context.Valid()
      ensures context.orders == old(context.orders)
      ensures context.nextProductId == old(context.nextProductId) && context.nextOrderId == old(context.nextOrderId)
      ensures !IsAdmin(caller) ==> r == Failure(Forbidden) && context.products == old(context.products)
      ensures IsAdmin(caller) && id !in old(context.products) ==>
        r == Failure(NotFound) && context.products == old(context.products)
      ensures IsAdmin(caller) && id in old(context.products) ==>
        && context.products == Deactivate(old(context.products), id)
        && r == Success(if HasOrderItems(old(context.orders), id) then DeactivatedWithOrders else Deactivated)
    {
      if !IsAdmin(caller) {
        return Failure(Forbidden);
      }
      if id !in context.products {
        return Failure(NotFound);
      }
      if HasOrderItems(context.orders, id) {
        context.products := Deactivate(context.products, id);
        return Success(DeactivatedWithOrders);
      }
      context.products := Deactivate(context.products, id);
      r := Success(Deactivated);
    }
  }
}
