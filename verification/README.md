# Sistema Morita — cash register core in Dafny

This project models the cash-register logic of `main.py` in the Morita
store system, a single-page Streamlit application for a small shop. The
session holds three things:

- an **inventory**: records with `Producto`, `Precio`, `Stock` and `Rubro`;
- a **cart** (*carrito*): entries with `Producto`, `Cant`, `Precio` and `Subtotal`;
- the last **answer of the language model** (`texto_ia`): one
  `PRODUCT | QUANTITY | SUBTOTAL` line per product heard in a spoken order.

The model covers:

- the "add everything" handler, which reads that answer into cart entries;
- manual add from the inventory, and removal of a cart entry;
- the invoice total and the change owed;
- the quick sale, which takes the sold quantities off the stock;
- registering and deleting inventory products.

Each handler is a pure function over immutable values. Amounts are exact
rationals (`real`).

Modules, one per file:

- `Wrappers` (wrappers.dfy): `Option`.
- `Text` (text.dfy): Python's `str.split` with one separator and its
  inverse `Join`; `str.strip` over Python's exact whitespace set;
  `str.lower` for ASCII and Latin-1.
- `Numbers` (numbers.dfy): Python's `float()` on finite decimal literals,
  and a decimal formatter that `float()` reads back exactly.
- `Records` (records.dfy): the two record shapes, and the unit price
  derived from a subtotal.
- `OrderParser` (order_parser.dfy): the line reader and the loop of the
  "add everything" handler.
- `OrderFormat` (order_format.dfy): the answer format the prompt in
  `gemini_service.py` asks for, and the proof that the parser reads it
  back.
- `Inventory` (inventory.dfy): lookup, register, delete and the stock
  update of the quick sale.
- `Cart` (cart.dfy): total, change, manual add and removal.
- `Session` (session.dfy): the session state and the two handlers that
  cross modules.
- `Scenarios` (scenarios.dfy): concrete answers worked through the parser.
  One is the prompt's own example, `Coca Cola | 2 | 7000`. Others are a
  spoken quantity (`dos`) that stops the batch, and prose without a
  separator.

Two behaviours of the "add everything" loop (main.py:93-98) are worth
stating:

- **A malformed line stops the batch.** A line
  holding `|` whose quantity or subtotal `float()` cannot read, or which
  has no third field, raises in the middle of the loop. The entries
  appended for earlier lines stay in the cart, later lines are never read,
  and the answer is not cleared (`ParseLines` returns the entries and the
  error; `Session.AddAll` appends the entries either way).
- **A zero quantity is kept.** The entry is added with
  unit price 0 and the subtotal as given (main.py:98).

## Model

| member | source | states |
|---|---|---|
| Text.JoinSplit | main.py:96 | Joining the pieces of a split with the separator gives the text back: splitting loses nothing but the separators |
| Text.SplitJoin | main.py:96 | Pieces free of the separator, once joined, split back into exactly those pieces |
| Text.SplitSeveral | main.py:95-96 | A line splits into two or more fields exactly when it holds the bar separator, so the second field exists whenever the guard holds |
| Text.TrimRight | main.py:97 | The result is a prefix of the text that does not end in whitespace, and everything cut off is whitespace |
| Text.TrimLeft | main.py:97 | The result is a suffix of the text that does not start with whitespace, and everything cut off is whitespace |
| Text.StripPadding | main.py:97 | Stripping removes exactly the whitespace at both ends: text that neither starts nor ends with whitespace comes back unchanged from any whitespace padding |
| Text.StripEmpty | main.py:89 | A text strips to nothing exactly when it is all whitespace, which is when the answer counts as blank |
| Numbers.ParseNum | main.py:97 | A text `float()` accepts is non-empty and made of sign, digit, point and exponent characters; the value is negative only when the text starts with `-` |
| Numbers.ParseNumDigits | main.py:97 | A plain run of decimal digits reads as the whole number it spells |
| Numbers.ParseFormat | main.py:97 | Every decimal written in plain positional notation (sign, digits, optional fraction) is read back by `float()` as exactly its value |
| Records.UnitPriceInverse | main.py:98 | The unit price derived from a voice-ordered subtotal, times the quantity, gives the subtotal back; for quantity 0 the unit price is 0 |
| OrderParser.ParseLine | main.py:95-98 | A line yields no entry exactly when it holds no bar separator |
| OrderParser.ParsedFields | main.py:96-98 | An entry's product is the stripped first field, and its quantity and subtotal are what `float()` reads from the stripped second and third fields |
| OrderParser.ParsedPrice | main.py:98 | An entry's unit price times its quantity is its subtotal, except that quantity 0 gives unit price 0 |
| OrderParser.ParsedFailure | main.py:95-97 | A line with a bar separator raises exactly when its quantity does not read as a number, it has no third field, or its third field does not read as a number |
| OrderParser.ExtraFieldsIgnored | main.py:96-97 | Fields after the third are never read: appending a further field to a line of three fields changes nothing |
| OrderParser.ParseOrder | main.py:93-98 | The whole answer, cut at line breaks and read line by line, goes through exactly when none of its lines raises; an answer without a single bar separator (prose, a refusal, an empty answer) adds nothing and raises nothing |
| OrderParser.ParseLinesSucceeds | main.py:94-98 | The batch goes through exactly when no line raises |
| OrderParser.ParseLinesEntries | main.py:94-98 | When the batch goes through there is exactly one entry per line holding the bar separator, in input order, and each entry is that line's reading |
| OrderParser.StopsAtFirstFailure | main.py:94-98 | At the first line that raises, the batch stops with that line's error; the entries of the lines before it are kept and later lines are not read |
| OrderParser.GatherAppend | main.py:94-98 | Reading two blocks of lines: if the first raises, the second is never read; otherwise the second's entries follow the first's |
| OrderFormat.ParseFormatOrder | main.py:93-98 | An answer written in the prompt's format (product, quantity and subtotal separated by bars, one line per item) reads back as exactly those items in order, with no failure, whether or not its last line ends in a line break |
| OrderParser.TrailingBreak | main.py:93-95 | A line break at the end of an answer changes nothing: the empty last line it opens holds no bar separator |
| Session.AddAll | main.py:89-99 | A blank answer changes nothing. Otherwise the entries the answer's parse yields (those read before any raising line) are appended after the existing cart, the handler raises exactly the parse's error, the inventory is untouched, and the answer is cleared only when the whole batch went through |
| Session.AddAllTotal | main.py:93-98 | The cart total grows by the total of the entries read from the answer |
| Session.AddAllFormatted | main.py:89-99 | A non-empty answer in the prompt's format, with or without a line break after its last line, is added in full, in order, and the answer is cleared |
| Inventory.FindFirst | main.py:110 | The position of the first record with exactly the selected name, and nothing exactly when no record has that name |
| Inventory.FindFirstIs | main.py:110 | The lookup is determined: it answers the first position holding the name |
| Cart.ManualAdd | main.py:108-114 | Nothing is added without a selection or for a name with no record. Otherwise exactly one entry is appended: the name, the quantity, the price of the first record with that name, and subtotal = price × quantity |
| Cart.ManualAddTotal | main.py:114 | The total grows by exactly the added entry's subtotal |
| Cart.TotalBounds | main.py:120 | When no subtotal is negative, the invoice total is not negative and is at least every single entry's subtotal |
| Cart.TotalConcat | main.py:120 | The total of two carts put together is the sum of their totals |
| Cart.Change | main.py:131 | The change is never negative. It is the exact difference exactly when the payment covers the total, and 0 exactly when it does not exceed it |
| Cart.RemoveAt | main.py:126 | Removing position `idx` drops exactly that entry: earlier entries stay in place, later ones move down by one, and the contents lose exactly one copy of it |
| Cart.RemoveAtTotal | main.py:120-126 | Removing an entry takes exactly its subtotal off the total |
| Inventory.Checkout | main.py:136-138 | After the quick sale, each record's stock is its old stock minus what the cart sells of it (names compared lower-cased); the length, order, names, prices and categories are kept |
| Inventory.UnsoldUnchanged | main.py:136-138 | A product no cart entry names, case ignored, is sold zero units |
| Inventory.CheckoutConcat | main.py:136-138 | Selling one cart and then another is the same as selling their concatenation |
| Inventory.NoStockFloor | main.py:138 | Stock has no floor: selling 3 of a product with stock 1 (matched case-insensitively) leaves stock -2 |
| Session.QuickSale | main.py:135-142 | With a non-empty cart, every record's stock drops by what the cart sells of it, and the cart and the answer are cleared; the inventory keeps its length |
| Inventory.Register | main.py:178 | The new record is appended at the end and every existing record stays in place; there is no check for a duplicate name |
| Inventory.RegisterKeepsFirst | main.py:178 | Registering a name that already exists leaves the earlier record as the one the lookup finds; a new name is found at the end |
| Inventory.Delete | main.py:182-183 | With no selection nothing changes. Otherwise every copy of each record named like the selection is removed, every copy of every other record is kept, and the count drops by their number |
| Inventory.DeleteIdempotent | main.py:183 | Deleting the same name twice is deleting it once |
| Inventory.DeleteConcat | main.py:183 | Deleting from a concatenation deletes from both parts, keeping their order |
| Inventory.RegisterThenDelete | main.py:178-183 | Registering a product and then deleting its name is the same as deleting the name directly |

## Left out

- The Streamlit page is not modelled: layout, widgets, the styled boxes and `st.rerun()`. Each button becomes a function from the session state to the next state.
- Recording from the microphone, transcription and the language-model call (`transcribir_audio_fluido`, `procesar_pedido_con_ia` in gemini_service.py) are outside the program's logic. They are network and audio I/O, so the model's answer is an input (`State.textoIa`).
- Persistence is not modelled: `guardar_datos` and `cargar_datos` read and write the JSON file. A handler's result state is what would be saved.
- The PDF ticket (`generar_ticket_pdf`) and the Excel export and restore are output formatting and file I/O, not modelled.
- The inventory table editor (`st.data_editor` and "save table changes") replaces the inventory wholesale with whatever the user typed. It is not modelled.
- The "clear answer" and "restart" buttons are not modelled. They only assign an empty answer, or an empty cart and answer (main.py:101-102, 150-152).
- The ticket download button's effect on the session is not modelled. Besides serving the PDF, pressing it clears the answer (main.py:147-148), exactly as the "clear answer" button does.
- Displaying the stock and price of the selected product, the sorted selection lists and `upper()` in the invoice display are not modelled. They format output and change no state.
- The widget bounds are not modelled: `min_value=0.01` for the manual quantity and `min_value=0.0` for payment, price and stock. Every quantity and amount the model accepts is any rational, which includes everything the widgets allow.
- The `Rubro` key may be missing from records loaded from an older file. The model always carries a category string: no operation here reads it, so an absent key changes no result.
- Numbers.ParseNum: does not accept everything Python's `float()` does. Left out are underscores between digits (`1_000`), `inf`, `infinity` and `nan` in any case and with a sign, and non-ASCII decimal digits (`２`). For those the model reports a failure where Python returns a number.
- Numbers.ParseNum: values are exact rationals, not IEEE doubles. Rounding, overflow to infinity and underflow to zero are not modelled. For example, Python reads a quantity written `1e-400` as `0.0` and so gives the entry unit price 0, while the model keeps the tiny nonzero quantity and divides by it. The same holds for `p_subt / p_cant`, `Precio * Cant`, the total, the change and the stock arithmetic.
- OrderParser.ParseLine: inherits both ParseNum gaps. A line whose quantity or subtotal is written with underscores, as `inf`/`nan`, or with non-ASCII digits is a failure in the model but an entry in the program.
- OrderParser.ParseOrder: inherits the same gaps through ParseLine, so such an answer stops the batch in the model where the program goes on.
- Inventory.Checkout: matches names with a lower-casing that folds only the ASCII and Latin-1 capitals. Python's `str.lower()` also folds Greek, Cyrillic and other capitals (`Σ`, `Ÿ`, the Kelvin sign), and turns `İ` into two characters. Names differing only in such letters count as different products here but as the same product in the program.
- Session.QuickSale: inherits the lower-casing gap of Inventory.Checkout.
