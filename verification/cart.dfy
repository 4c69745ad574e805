/** The cart of the cash register: manual add from the inventory, removal by
    position, the invoice total and the change owed. */
module Cart {
  import opened Wrappers
  import opened Records
  import opened Inventory

  /** The invoice total: the sum of the subtotals of the cart entries. */
  function Total(cart: seq<CartLine>): real
  {
    if |cart| == 0 then 0.0 else cart[0].subtotal + Total(cart[1..])
  }

  /** When no subtotal is negative, the total is not negative either and is
      at least any one entry's subtotal. */
  lemma {:induction false} TotalBounds(cart: seq<CartLine>)
    requires forall k :: 0 <= k < |cart| ==> cart[k].subtotal >= 0.0
    ensures Total(cart) >= 0.0
    ensures forall k :: 0 <= k < |cart| ==> Total(cart) >= cart[k].subtotal
    decreases |cart|
  {
    if |cart| > 0 {
      assert forall k :: 0 <= k < |cart| - 1 ==> cart[1..][k] == cart[k + 1];
      TotalBounds(cart[1..]);
    }
  }

  /** The total of two carts put together is the sum of their totals. */
  lemma {:induction false} TotalConcat(a: seq<CartLine>, b: seq<CartLine>)
    ensures Total(a + b) == Total(a) + Total(b)
    decreases |a|
  {
    if |a| == 0 {
      assert a + b == b;
    } else {
      assert (a + b)[1..] == a[1..] + b;
      TotalConcat(a[1..], b);
    }
  }

  /** The change owed: the payment minus the total, floored at zero.  It is
      never negative, and it is the exact difference exactly when the payment
      covers the total. */
  function Change(paga: real, total: real): (v: real)
    ensures v >= 0.0 && v >= paga - total
    ensures v == paga - total <==> paga >= total
    ensures v == 0.0 <==> paga <= total
  {
    if paga - total > 0.0 then paga - total else 0.0
  }

  /** "Add to invoice": the entry takes the price of the first inventory
      record with exactly the selected name.  Nothing is added without a
      selection; a name with no record (which the selection box cannot offer)
      makes the lookup raise, and nothing is added either. */
  function ManualAdd(cart: seq<CartLine>, inv: seq<Product>, name: string, cant: real): (r: Option<seq<CartLine>>)
    ensures r.Some? <==> name != "" && exists k :: 0 <= k < |inv| && inv[k].producto == name
    ensures r.Some? ==> |r.value| == |cart| + 1 && r.value[..|cart|] == cart
    ensures r.Some? ==>
      var e := r.value[|cart|];
      && e.producto == name && e.cant == cant && Consistent(e)
      && exists k :: (0 <= k < |inv| && inv[k].producto == name && e.precio == inv[k].precio
                      && forall j :: 0 <= j < k ==> inv[j].producto != name)
  {
    if name == "" then None
    else match FindFirst(inv, name)
      case None => None
      case Some(k) =>
        var p := inv[k].precio;
        Some(cart + [CartLine(name, cant, p, p * cant)])
  }

  /** The invoice total grows by exactly the added entry's subtotal (its
      price times the quantity). */
  lemma ManualAddTotal(cart: seq<CartLine>, inv: seq<Product>, name: string, cant: real)
    requires ManualAdd(cart, inv, name, cant).Some?
    ensures var r := ManualAdd(cart, inv, name, cant).value;
      Total(r) == Total(cart) + r[|cart|].subtotal
  {
    var r := ManualAdd(cart, inv, name, cant).value;
    var e := r[|cart|];
    assert r == cart + [e];
    TotalConcat(cart, [e]);
    assert Total([e]) == e.subtotal;
  }

  /** Removing the entry at a position: exactly that entry goes; the entries
      before it stay in place and those after it move down by one. */
  function RemoveAt(cart: seq<CartLine>, idx: nat): (r: seq<CartLine>)
    requires idx < |cart|
    ensures |r| == |cart| - 1
    ensures forall j :: 0 <= j < idx ==> r[j] == cart[j]
    ensures forall j :: idx <= j < |r| ==> r[j] == cart[j + 1]
    ensures multiset(r) + multiset{cart[idx]} == multiset(cart)
  {
    assert cart == cart[..idx] + [cart[idx]] + cart[idx + 1..];
    cart[..idx] + cart[idx + 1..]
  }

  /** Removing an entry takes exactly its subtotal off the invoice total. */
  lemma RemoveAtTotal(cart: seq<CartLine>, idx: nat)
    requires idx < |cart|
    ensures Total(RemoveAt(cart, idx)) == Total(cart) - cart[idx].subtotal
  {
    var before, x, after := cart[..idx], cart[idx], cart[idx + 1..];
    assert cart == before + [x] + after;
    assert RemoveAt(cart, idx) == before + after;
    TotalWithout(before, x, after);
  }

  /** Taking one entry out of the middle of a cart lowers its total by that
      entry's subtotal. */
  lemma TotalWithout(before: seq<CartLine>, x: CartLine, after: seq<CartLine>)
    ensures Total(before + after) == Total(before + [x] + after) - x.subtotal
  {
    TotalConcat(before + [x], after);
    TotalConcat(before, [x]);
    TotalConcat(before, after);
    assert [x][1..] == [];
  }
}
