/** The access policy of the inventory views and the product list's search filter. */
module Views {
  import opened Text
  import opened Accounts
  import opened Catalog

  /** `is_admin`: a signed-in user whose `user_type` is admin. */
  predicate IsAdmin(who: Principal) {
    who.SignedIn? && IsAdminUser(who.user)
  }

  /** `is_admin_or_staff`, the test of `AdminRequiredMixin` and of the import view. */
  predicate IsAdminOrStaff(who: Principal) {
    who.SignedIn? && (IsAdminUser(who.user) || who.user.isStaff || who.user.isSuperuser)
  }

  /** Anonymous requests are never privileged; an admin is always privileged; a new account is
      not; and a signed-in user without the admin type passes only through a framework flag. */
  lemma PrivilegeFacts(who: Principal, name: string)
    ensures who.Anonymous? ==> !IsAdmin(who) && !IsAdminOrStaff(who)
    ensures IsAdmin(who) ==> IsAdminOrStaff(who)
    ensures !IsAdminOrStaff(SignedIn(NewUser(name)))
    ensures who.SignedIn? && !IsAdminUser(who.user) ==>
      (IsAdminOrStaff(who) <==> who.user.isStaff || who.user.isSuperuser)
  {
  }

  /** The views of the inventory application. */
  datatype View =
    | Dashboard
    | ProductList | ProductDetail | ProductCreate | ProductUpdate | ProductDelete
    | UpdateStock
    | CategoryList | CategoryCreate | CategoryUpdate | CategoryDelete
    | SupplierList | SupplierDetail | SupplierCreate | SupplierUpdate | SupplierDelete
    | InventoryReport | SupplierReport
    | ImportProducts | ExportProducts

  /** Class-based views that combine `LoginRequiredMixin` with `AdminRequiredMixin`. */
  predicate AdminMixinView(v: View) {
    v in {ProductDelete, CategoryCreate, CategoryUpdate, CategoryDelete,
          SupplierCreate, SupplierUpdate, SupplierDelete}
  }

  /** What happens to a request before the view body runs: it goes ahead, or it is redirected
      (to the login page, or to the dashboard with a permission error) and changes nothing. */
  datatype Access = Granted | LoginRedirect | DashboardRedirect

  /** The decision of the view's login and permission guards. On an `AdminRequiredMixin` view
      the mixin's own `handle_no_permission` also answers anonymous requests, so they too are
      sent to the dashboard (which then asks them to log in). The import view uses decorators,
      and both of them send a refused request to the login page. */
  function Gate(v: View, who: Principal): (a: Access)
    ensures a == Granted <==> who.SignedIn? && ((!AdminMixinView(v) && v != ImportProducts) || IsAdminOrStaff(who))
    ensures a == DashboardRedirect <==> AdminMixinView(v) && !IsAdminOrStaff(who)
    ensures v == ImportProducts && !IsAdminOrStaff(who) ==> a == LoginRedirect
  {
    if AdminMixinView(v) then
      if IsAdminOrStaff(who) then Granted else DashboardRedirect
    else if who.Anonymous? then LoginRedirect
    else if v == ImportProducts && !IsAdminOrStaff(who) then LoginRedirect
    else Granted
  }

  /** Creating and editing products and moving stock are open to every signed-in user; deleting
      products, changing categories and suppliers, and importing are not open to employees. */
  lemma EmployeesAndPrivilegedViews(u: User, v: View)
    requires u.userType == EmployeeType && !u.isStaff && !u.isSuperuser
    ensures v in {ProductCreate, ProductUpdate, UpdateStock, ExportProducts} ==> Gate(v, SignedIn(u)) == Granted
    ensures AdminMixinView(v) || v == ImportProducts ==> Gate(v, SignedIn(u)) != Granted
  {
  }

  /** `icontains`: `needle` occurs in `hay` ignoring the case of ASCII letters. */
  predicate IContains(hay: string, needle: string) {
    Contains(Lower(hay), Lower(needle))
  }

  /** The query of the product list: every filter given (non-empty) must hold; the search text
      may match the name, the SKU or the description; categories and suppliers are identified
      by name. */
  predicate MatchesQuery(p: Product, search: string, category: string, supplier: string) {
    && (search == "" || IContains(p.name, search) || IContains(p.sku, search) || IContains(p.description, search))
    && (category == "" || p.category == Some(category))
    && (supplier == "" || supplier in p.suppliers)
  }

  /** `ProductListView.get_queryset` over the products in the list's order. */
  function ListProducts(products: seq<Product>, search: string, category: string, supplier: string): (r: seq<Product>)
    ensures |r| <= |products|
    ensures forall p <- r :: p in products && MatchesQuery(p, search, category, supplier)
    ensures forall p <- products :: MatchesQuery(p, search, category, supplier) ==> p in r
  {
    if products == [] then []
    else
      var rest := ListProducts(products[1..], search, category, supplier);
      if MatchesQuery(products[0], search, category, supplier) then [products[0]] + rest else rest
  }

  /** A single product is listed exactly when it matches the query. */
  lemma ListOneProduct(p: Product, search: string, category: string, supplier: string)
    ensures ListProducts([p], search, category, supplier) == (if MatchesQuery(p, search, category, supplier) then [p] else [])
  {
    assert [p][1..] == [];
  }

  /** Filtering keeps the list's order and multiplicity: the list of two runs of products is
      the list of the first run followed by the list of the second. */
  lemma {:induction false} ListProductsAppend(xs: seq<Product>, ys: seq<Product>, search: string, category: string, supplier: string)
    ensures ListProducts(xs + ys, search, category, supplier)
         == ListProducts(xs, search, category, supplier) + ListProducts(ys, search, category, supplier)
  {
    if xs == [] {
      assert xs + ys == ys;
    } else {
      assert (xs + ys)[1..] == xs[1..] + ys;
      assert (xs + ys)[0] == xs[0];
      ListProductsAppend(xs[1..], ys, search, category, supplier);
    }
  }

  /** Without any filter the list shows every product, in order. */
  lemma {:induction false} UnfilteredListIsAll(products: seq<Product>)
    ensures ListProducts(products, "", "", "") == products
  {
    if products != [] {
      UnfilteredListIsAll(products[1..]);
    }
  }

  /** Narrowing a query by a category can only remove products from the list. */
  lemma {:induction false} CategoryFilterNarrows(products: seq<Product>, search: string, category: string, supplier: string)
    ensures |ListProducts(products, search, category, supplier)| <= |ListProducts(products, search, "", supplier)|
  {
    if products != [] {
      CategoryFilterNarrows(products[1..], search, category, supplier);
    }
  }
}
