/** The two record shapes the register keeps in its session: inventory
    products and cart entries, with amounts as exact rationals. */
module Records {

  /** An inventory record `{"Producto", "Precio", "Stock", "Rubro"}`. */
  datatype Product = Product(producto: string, precio: real, stock: real, rubro: string)

  /** A cart entry `{"Producto", "Cant", "Precio", "Subtotal"}`. */
  datatype CartLine = CartLine(producto: string, cant: real, precio: real, subtotal: real)

  /** The unit price of a voice-ordered line, derived from its subtotal: the
      quotient by the quantity, or 0 when the quantity is 0. */
  function UnitPrice(subtotal: real, cant: real): real
  {
    if cant != 0.0 then subtotal / cant else 0.0
  }

  /** The derived unit price times the quantity gives the subtotal back,
      except for quantity 0, where the price is 0. */
  lemma UnitPriceInverse(subtotal: real, cant: real)
    ensures cant != 0.0 ==> UnitPrice(subtotal, cant) * cant == subtotal
    ensures cant == 0.0 ==> UnitPrice(subtotal, cant) == 0.0
  {
    if cant != 0.0 {
      var p := subtotal / cant;
      assert p * cant == subtotal;
    }
  }

  /** The subtotal of an entry is its quantity times its unit price. */
  predicate Consistent(line: CartLine)
  {
    line.precio * line.cant == line.subtotal
  }
}
