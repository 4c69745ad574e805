/** The register's session state and the two handlers that move data between
    the cart and the inventory: "add everything" from the voice order, and the
    quick sale. */
module Session {
  import opened Wrappers
  import opened Text
  import opened Records
  import opened Inventory
  import opened Cart
  import opened OrderParser
  import opened OrderFormat

  /** The session: the inventory, the cart and the model's last answer. */
  datatype State = State(inventario: seq<Product>, carrito: seq<CartLine>, textoIa: string)

  /** The state a handler leaves behind, and the error it raised, if any. */
  datatype Outcome = Outcome(state: State, raised: Option<LineError>)

  /** "Add everything": offered only for an answer that is not blank.  Every
      entry read before a line that raises is already in the cart; the answer
      is cleared only when the whole batch went through. */
  function AddAll(s: State): (o: Outcome)
    ensures o.state.inventario == s.inventario
    ensures |o.state.carrito| >= |s.carrito| && o.state.carrito[..|s.carrito|] == s.carrito
    ensures o.raised.Some? ==> o.state.textoIa == s.textoIa
    ensures o.raised.None? && Strip(s.textoIa) != "" ==> o.state.textoIa == ""
    ensures Strip(s.textoIa) == "" ==> o == Outcome(s, None)
    ensures Strip(s.textoIa) != "" ==>
      o.state.carrito == s.carrito + ParseOrder(s.textoIa).entries && o.raised == ParseOrder(s.textoIa).failure
  {
    if Strip(s.textoIa) == "" then Outcome(s, None) else Append(s, ParseOrder(s.textoIa))
  }

  /** The entries of a batch go after the cart, its failure is raised, and
      the answer is cleared only when there is none. */
  function Append(s: State, b: Batch): (o: Outcome)
    ensures o.state.inventario == s.inventario
    ensures o.state.carrito == s.carrito + b.entries && o.raised == b.failure
    ensures |o.state.carrito| >= |s.carrito| && o.state.carrito[..|s.carrito|] == s.carrito
    ensures o.raised.Some? ==> o.state.textoIa == s.textoIa
    ensures o.raised.None? ==> o.state.textoIa == ""
  {
    var cart := s.carrito + b.entries;
    assert cart[..|s.carrito|] == s.carrito;
    Outcome(s.(carrito := cart, textoIa := if b.failure.None? then "" else s.textoIa), b.failure)
  }

  /** The cart total grows by the total of the entries read. */
  lemma AddAllTotal(s: State)
    requires Strip(s.textoIa) != ""
    ensures Total(AddAll(s).state.carrito) == Total(s.carrito) + Total(ParseOrder(s.textoIa).entries)
  {
    TotalConcat(s.carrito, ParseOrder(s.textoIa).entries);
  }

  /** An answer in the prompt's format, with or without a line break after
      its last line, is added in full: every item becomes its entry, in
      order, and the answer is cleared. */
  lemma AddAllFormatted(s: State, items: seq<OrderItem>)
    requires |items| > 0 && forall k :: 0 <= k < |items| ==> PlainName(items[k].name)
    requires s.textoIa == FormatOrder(items) || s.textoIa + "\n" == FormatOrder(items)
    ensures AddAll(s) == Outcome(s.(carrito := s.carrito + ExpectedAll(items), textoIa := ""), None)
  {
    FormatOrderNotBlank(items);
    ParseFormatTerminated(items);
    var t := s.textoIa;
    if t + "\n" == FormatOrder(items) {
      StripTrailingSpace(t, '\n');
      assert t + ['\n'] == FormatOrder(items);
      TrailingBreak(t);
    }
  }

  /** The quick sale: every record's stock drops by what the cart sells of it
      (names compared case-insensitively, no floor at zero), the cart is
      emptied and the answer cleared.  It is offered only for a non-empty cart. */
  function QuickSale(s: State): (r: State)
    ensures r.carrito == []
    ensures |r.inventario| == |s.inventario|
    ensures forall i :: 0 <= i < |s.inventario| ==>
      r.inventario[i] == s.inventario[i].(stock := s.inventario[i].stock - SoldOf(s.carrito, s.inventario[i].producto))
    ensures |s.carrito| > 0 ==> r.textoIa == ""
  {
    if |s.carrito| == 0 then s
    else State(Checkout(s.inventario, s.carrito), [], "")
  }
}
