/** The inventory list: registering and deleting products, the exact-name
    lookup the manual cart add uses, and the stock decrement of a quick sale. */
module Inventory {
  import opened Wrappers
  import opened Text
  import opened Records

  /** The first inventory record whose name is exactly `name`: its position,
      or nothing when no record has that name. */
  function FindFirst(inv: seq<Product>, name: string): (r: Option<nat>)
    ensures r.Some? ==> r.value < |inv| && inv[r.value].producto == name
    ensures r.Some? ==> forall j :: 0 <= j < r.value ==> inv[j].producto != name
    ensures r.None? <==> forall j :: 0 <= j < |inv| ==> inv[j].producto != name
  {
    if |inv| == 0 then None
    else if inv[0].producto == name then Some(0)
    else match FindFirst(inv[1..], name)
      case None => None
      case Some(k) => Some(k + 1)
  }

  /** The registration form: the new record goes at the end, whatever names
      are already there. */
  function Register(inv: seq<Product>, p: Product): (r: seq<Product>)
    ensures |r| == |inv| + 1 && r[|inv|] == p
    ensures forall j :: 0 <= j < |inv| ==> r[j] == inv[j]
  {
    inv + [p]
  }

  /** The records not named `sel`, in their order. */
  function Without(inv: seq<Product>, sel: string): seq<Product>
  {
    if |inv| == 0 then []
    else if inv[0].producto == sel then Without(inv[1..], sel)
    else [inv[0]] + Without(inv[1..], sel)
  }

  /** How many records are named exactly `sel`. */
  function CountNamed(inv: seq<Product>, sel: string): nat
  {
    if |inv| == 0 then 0
    else (if inv[0].producto == sel then 1 else 0) + CountNamed(inv[1..], sel)
  }

  /** "Delete selected": with a selection, every record named exactly like it
      goes and the others stay; with the empty selection nothing happens.
      The ensures fix how many copies of each record survive; that they
      keep their order follows from `DeleteConcat`. */
  function Delete(inv: seq<Product>, sel: string): (r: seq<Product>)
    ensures sel == "" ==> r == inv
    ensures sel != "" ==> forall p :: p in r <==> p in inv && p.producto != sel
    ensures sel != "" ==> |r| == |inv| - CountNamed(inv, sel)
    ensures sel != "" ==> forall p :: multiset(r)[p] == if p.producto == sel then 0 else multiset(inv)[p]
  {
    if sel == "" then inv else WithoutSpec(inv, sel); WithoutCopies(inv, sel); Without(inv, sel)
  }

  /** Each record not named `sel` keeps all its copies; the others keep none. */
  lemma {:induction false} WithoutCopies(inv: seq<Product>, sel: string)
    ensures forall p :: multiset(Without(inv, sel))[p] == if p.producto == sel then 0 else multiset(inv)[p]
    decreases |inv|
  {
    if |inv| > 0 {
      WithoutCopies(inv[1..], sel);
      assert inv == [inv[0]] + inv[1..];
    }
  }

  lemma {:induction false} WithoutSpec(inv: seq<Product>, sel: string)
    ensures forall p :: p in Without(inv, sel) <==> p in inv && p.producto != sel
    ensures |Without(inv, sel)| == |inv| - CountNamed(inv, sel)
    decreases |inv|
  {
    if |inv| > 0 {
      WithoutSpec(inv[1..], sel);
      assert inv == [inv[0]] + inv[1..];
    }
  }

  /** Deleting from a concatenation deletes from both parts: the records
      that stay keep their relative order. */
  lemma {:induction false} DeleteConcat(a: seq<Product>, b: seq<Product>, sel: string)
    ensures Delete(a + b, sel) == Delete(a, sel) + Delete(b, sel)
  {
    if sel != "" {
      WithoutConcat(a, b, sel);
    }
  }

  lemma {:induction false} WithoutConcat(a: seq<Product>, b: seq<Product>, sel: string)
    ensures Without(a + b, sel) == Without(a, sel) + Without(b, sel)
    decreases |a|
  {
    if |a| > 0 {
      assert (a + b)[0] == a[0];
      assert (a + b)[1..] == a[1..] + b;
      WithoutConcat(a[1..], b, sel);
    } else {
      assert a + b == b;
    }
  }

  /** Deleting twice is deleting once. */
  lemma DeleteIdempotent(inv: seq<Product>, sel: string)
    ensures Delete(Delete(inv, sel), sel) == Delete(inv, sel)
  {
    if sel != "" {
      WithoutIdempotent(inv, sel);
    }
  }

  lemma {:induction false} WithoutIdempotent(inv: seq<Product>, sel: string)
    ensures Without(Without(inv, sel), sel) == Without(inv, sel)
    decreases |inv|
  {
    if |inv| > 0 {
      WithoutIdempotent(inv[1..], sel);
    }
  }

  /** Registering a product and then deleting its name is the same as deleting it directly. */
  lemma RegisterThenDelete(inv: seq<Product>, p: Product)
    requires p.producto != ""
    ensures Delete(Register(inv, p), p.producto) == Delete(inv, p.producto)
  {
    DeleteConcat(inv, [p], p.producto);
  }

  /** No uniqueness check: registering a name that is already there leaves the
      earlier record as the one the lookup finds. */
  lemma RegisterKeepsFirst(inv: seq<Product>, p: Product)
    ensures FindFirst(Register(inv, p), p.producto) ==
      if FindFirst(inv, p.producto).Some? then FindFirst(inv, p.producto) else Some(|inv|)
  {
    var r := Register(inv, p);
    match FindFirst(inv, p.producto)
    case None =>
      FindFirstIs(r, p.producto, |inv|);
    case Some(k) =>
      FindFirstIs(r, p.producto, k);
  }

  /** The lookup's answer is determined: the first position holding the name. */
  lemma FindFirstIs(inv: seq<Product>, name: string, k: nat)
    requires k < |inv| && inv[k].producto == name
    requires forall j :: 0 <= j < k ==> inv[j].producto != name
    ensures FindFirst(inv, name) == Some(k)
  {
    assert FindFirst(inv, name).Some?;
  }

  /** The total quantity the cart sells of products named like `name`, case
      ignored. */
  function SoldOf(cart: seq<CartLine>, name: string): real
  {
    if |cart| == 0 then 0.0
    else (if SameName(cart[0].producto, name) then cart[0].cant else 0.0) + SoldOf(cart[1..], name)
  }

  /** One pass of the inner loop: every record whose lower-cased name equals
      the entry's loses the entry's quantity. */
  function SellLine(inv: seq<Product>, it: CartLine): (r: seq<Product>)
    ensures |r| == |inv|
    ensures forall i :: 0 <= i < |inv| ==> r[i] == inv[i].(stock :=
      inv[i].stock - if SameName(it.producto, inv[i].producto) then it.cant else 0.0)
  {
    seq(|inv|, i requires 0 <= i < |inv| =>
      if SameName(inv[i].producto, it.producto) then inv[i].(stock := inv[i].stock - it.cant) else inv[i])
  }

  /** The quick sale's stock update, cart entry by cart entry: each record's
      stock drops by the quantity the cart sells of it, with no floor at zero;
      names, prices, categories, order and length are kept. */
  function Checkout(inv: seq<Product>, cart: seq<CartLine>): (r: seq<Product>)
    ensures |r| == |inv|
    ensures forall i :: 0 <= i < |inv| ==>
      r[i] == inv[i].(stock := inv[i].stock - SoldOf(cart, inv[i].producto))
    decreases |cart|
  {
    if |cart| == 0 then inv else Checkout(SellLine(inv, cart[0]), cart[1..])
  }

  /** A record no cart entry names (case ignored) comes out of the sale unchanged. */
  lemma {:induction false} UnsoldUnchanged(cart: seq<CartLine>, name: string)
    requires forall j :: 0 <= j < |cart| ==> !SameName(cart[j].producto, name)
    ensures SoldOf(cart, name) == 0.0
    decreases |cart|
  {
    if |cart| > 0 {
      assert !SameName(cart[0].producto, name);
      UnsoldUnchanged(cart[1..], name);
    }
  }

  /** Selling two carts one after the other is selling their concatenation. */
  lemma {:induction false} SoldOfConcat(a: seq<CartLine>, b: seq<CartLine>, name: string)
    ensures SoldOf(a + b, name) == SoldOf(a, name) + SoldOf(b, name)
    decreases |a|
  {
    if |a| == 0 {
      assert a + b == b;
    } else {
      assert (a + b)[1..] == a[1..] + b;
      SoldOfConcat(a[1..], b, name);
    }
  }

  lemma CheckoutConcat(inv: seq<Product>, a: seq<CartLine>, b: seq<CartLine>)
    ensures Checkout(Checkout(inv, a), b) == Checkout(inv, a + b)
  {
    forall i | 0 <= i < |inv|
      ensures Checkout(Checkout(inv, a), b)[i] == Checkout(inv, a + b)[i]
    {
      SoldOfConcat(a, b, inv[i].producto);
    }
  }

  /** Stock has no floor: selling more than is in stock leaves it negative,
      and names match regardless of case. */
  lemma NoStockFloor()
    ensures Checkout([Product("Leche", 900.0, 1.0, "Almacén")], [CartLine("LECHE", 3.0, 900.0, 2700.0)])
      == [Product("Leche", 900.0, -2.0, "Almacén")]
  {
    assert Lower("LECHE") == Lower("Leche");
  }
}
