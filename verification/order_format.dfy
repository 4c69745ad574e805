/** The answer format the prompt asks the language model for (one
    `PRODUCT | QUANTITY | SUBTOTAL` line per product), and the proof that the
    parser reads any answer in that format back to the intended entries. */
module OrderFormat {
  import opened Wrappers
  import opened Text
  import opened Numbers
  import opened Records
  import opened OrderParser

  /** One ordered product, with decimal quantity and subtotal. */
  datatype OrderItem = OrderItem(name: string, cant: Decimal, subtotal: Decimal)

  /** A product name that survives as a first field: no separator, no line
      break, no surrounding whitespace. */
  predicate PlainName(n: string)
  {
    && '|' !in n
    && '\n' !in n
    && (|n| > 0 ==> !IsSpace(n[0]) && !IsSpace(n[|n| - 1]))
  }

  /** The three fields of a line, each padded by one blank next to the separator. */
  function Fields(it: OrderItem): seq<string>
  {
    [it.name + " ", " " + Format(it.cant) + " ", " " + Format(it.subtotal)]
  }

  /** `Coca Cola | 2 | 7000`: the fields joined by `|`. */
  function FormatLine(it: OrderItem): string
  {
    Join(Fields(it), '|')
  }

  /** One line per item, each ended by a line break. */
  function FormatOrder(items: seq<OrderItem>): string
  {
    if |items| == 0 then "" else FormatLine(items[0]) + "\n" + FormatOrder(items[1..])
  }

  /** The cart entry an item stands for: the unit price is derived from the subtotal. */
  function Expected(it: OrderItem): CartLine
  {
    CartLine(it.name, Value(it.cant), UnitPrice(Value(it.subtotal), Value(it.cant)), Value(it.subtotal))
  }

  lemma FormatHasNoBreaks(d: Decimal)
    ensures '|' !in Format(d) && '\n' !in Format(d)
    ensures !IsSpace(Format(d)[0]) && !IsSpace(Format(d)[|Format(d)| - 1])
  {
    var t := Format(d);
    FormatShape(d);
    NumeralAvoids(t, '|');
    NumeralAvoids(t, '\n');
    assert IsDigit(t[0]) || t[0] == '-';
    assert IsDigit(t[|t| - 1]);
  }

  lemma NumeralAvoids(t: string, c: char)
    requires forall k :: 0 <= k < |t| ==> IsDigit(t[k]) || t[k] == '-' || t[k] == '.'
    requires !IsDigit(c) && c != '-' && c != '.'
    ensures c !in t
  {
  }

  /** The three fields of a formatted line, and no line break. */
  lemma SplitFormatLine(it: OrderItem)
    requires PlainName(it.name)
    ensures Split(FormatLine(it), '|') == Fields(it)
    ensures '\n' !in FormatLine(it)
  {
    FieldsClean(it);
    SplitJoin(Fields(it), '|');
    JoinAvoids(Fields(it), '|', '\n');
  }

  /** No field holds a separator or a line break. */
  lemma FieldsClean(it: OrderItem)
    requires PlainName(it.name)
    ensures forall k :: 0 <= k < |Fields(it)| ==> '|' !in Fields(it)[k] && '\n' !in Fields(it)[k]
  {
    FormatHasNoBreaks(it.cant);
    FormatHasNoBreaks(it.subtotal);
    PaddedClean(it.name, Format(it.cant), Format(it.subtotal), '|');
    PaddedClean(it.name, Format(it.cant), Format(it.subtotal), '\n');
  }

  lemma PaddedClean(name: string, q: string, s: string, c: char)
    requires c != ' ' && c !in name && c !in q && c !in s
    ensures var f := [name + " ", " " + q + " ", " " + s];
      forall k :: 0 <= k < |f| ==> c !in f[k]
  {
    var f := [name + " ", " " + q + " ", " " + s];
    forall k | 0 <= k < |f|
      ensures c !in f[k]
    {
      if k == 0 {
        assert f[k] == name + " ";
      } else if k == 1 {
        assert f[k] == " " + q + " ";
      } else {
        assert f[k] == " " + s;
      }
    }
  }

  /** A number padded with whitespace reads back as its value. */
  lemma ReadPadded(d: Decimal, p: string, q: string)
    requires AllSpace(p) && AllSpace(q)
    ensures ParseNum(Strip(p + Format(d) + q)) == Some(Value(d))
  {
    FormatHasNoBreaks(d);
    StripPadding(p, Format(d), q);
    ParseFormat(d);
  }

  /** The first field, stripped, is the name. */
  lemma ReadName(it: OrderItem)
    requires PlainName(it.name)
    ensures Strip(Fields(it)[0]) == it.name
  {
    assert Fields(it)[0] == "" + it.name + " ";
    StripPadding("", it.name, " ");
  }

  /** The second field reads as the quantity. */
  lemma ReadQuantity(it: OrderItem)
    ensures ParseNum(Strip(Fields(it)[1])) == Some(Value(it.cant))
  {
    ReadPadded(it.cant, " ", " ");
  }

  /** The third field reads as the subtotal. */
  lemma ReadSubtotal(it: OrderItem)
    ensures ParseNum(Strip(Fields(it)[2])) == Some(Value(it.subtotal))
  {
    assert Fields(it)[2] == " " + Format(it.subtotal) + "";
    ReadPadded(it.subtotal, " ", "");
  }

  /** A well-formed line reads back as the entry it was written from. */
  lemma ParseFormatLine(it: OrderItem)
    requires PlainName(it.name)
    ensures ParseLine(FormatLine(it)) == Entry(Expected(it))
  {
    var l := FormatLine(it);
    SplitFormatLine(it);
    SplitSeveral(l, '|');
    assert ParseLine(l) == ReadParts(Fields(it));
    ReadName(it);
    ReadQuantity(it);
    ReadSubtotal(it);
    ReadPartsEntry(Fields(it), Value(it.cant), Value(it.subtotal));
  }

  /** The entries an answer stands for. */
  function ExpectedAll(items: seq<OrderItem>): seq<CartLine>
  {
    if |items| == 0 then [] else [Expected(items[0])] + ExpectedAll(items[1..])
  }

  /** A well-formed answer reads back as exactly its entries, in order, with
      no failure, whether or not its last line ends in a line break: the
      parser inverts the format the prompt asks for. */
  lemma ParseFormatOrder(items: seq<OrderItem>)
    requires forall k :: 0 <= k < |items| ==> PlainName(items[k].name)
    ensures ParseOrder(FormatOrder(items)) == Batch(ExpectedAll(items), None)
    ensures |items| > 0 ==>
      ParseOrder(FormatOrder(items)[..|FormatOrder(items)| - 1]) == Batch(ExpectedAll(items), None)
  {
    ParseFormatTerminated(items);
    if |items| > 0 {
      FormatOrderEnds(items);
      DropBreak(FormatOrder(items));
    }
  }

  /** Dropping the final line break of an answer does not change its reading. */
  lemma DropBreak(f: string)
    requires |f| > 0 && f[|f| - 1] == '\n'
    ensures ParseOrder(f[..|f| - 1]) == ParseOrder(f)
  {
    assert f == f[..|f| - 1] + "\n";
    TrailingBreak(f[..|f| - 1]);
  }

  /** A formatted answer ends in a line break. */
  lemma {:induction false} FormatOrderEnds(items: seq<OrderItem>)
    requires |items| > 0
    ensures var f := FormatOrder(items); |f| > 0 && f[|f| - 1] == '\n'
    decreases |items|
  {
    if |items| > 1 {
      FormatOrderEnds(items[1..]);
    } else {
      assert items[1..] == [];
    }
  }

  lemma ParseFormatTerminated(items: seq<OrderItem>)
    requires forall k :: 0 <= k < |items| ==> PlainName(items[k].name)
    ensures ParseOrder(FormatOrder(items)) == Batch(ExpectedAll(items), None)
  {
    forall k | 0 <= k < |items|
      ensures ParseLine(FormatLine(items[k])) == Entry(Expected(items[k]))
    {
      ParseFormatLine(items[k]);
    }
    assert ParseLine("") == NoEntry;
    GatherFormatted(items, ParseLine);
  }

  /** The loop over a formatted answer, for any line reader that reads each
      formatted line as its entry and passes over the empty last line. */
  lemma {:induction false} GatherFormatted(items: seq<OrderItem>, parse: string -> LineResult)
    requires forall k :: 0 <= k < |items| ==> PlainName(items[k].name)
    requires forall k :: 0 <= k < |items| ==> parse(FormatLine(items[k])) == Entry(Expected(items[k]))
    requires parse("") == NoEntry
    ensures Gather(Split(FormatOrder(items), '\n'), parse) == Batch(ExpectedAll(items), None)
    decreases |items|
  {
    if |items| == 0 {
      assert Split("", '\n') == [""];
      assert [""][1..] == [];
    } else {
      assert forall k :: 0 <= k < |items[1..]| ==> items[1..][k] == items[k + 1];
      GatherFormatted(items[1..], parse);
      FormattedStep(items, parse);
    }
  }

  lemma FormattedStep(items: seq<OrderItem>, parse: string -> LineResult)
    requires |items| > 0 && PlainName(items[0].name)
    requires parse(FormatLine(items[0])) == Entry(Expected(items[0]))
    requires Gather(Split(FormatOrder(items[1..]), '\n'), parse) == Batch(ExpectedAll(items[1..]), None)
    ensures Gather(Split(FormatOrder(items), '\n'), parse) == Batch(ExpectedAll(items), None)
  {
    var ls := Split(FormatOrder(items), '\n');
    SplitOrder(items);
    assert ls[0] == FormatLine(items[0]);
    assert ls[1..] == Split(FormatOrder(items[1..]), '\n');
    GatherCons(ls, parse, Expected(items[0]), Batch(ExpectedAll(items[1..]), None));
  }

  /** The first line of a formatted answer comes off whole. */
  lemma SplitOrder(items: seq<OrderItem>)
    requires |items| > 0 && PlainName(items[0].name)
    ensures Split(FormatOrder(items), '\n') == [FormatLine(items[0])] + Split(FormatOrder(items[1..]), '\n')
  {
    var first, rest := FormatLine(items[0]), FormatOrder(items[1..]);
    SplitFormatLine(items[0]);
    SplitAppend(first, '\n', rest);
    assert Split(first, '\n') == [first];
  }

  /** A formatted answer with at least one item is not blank. */
  lemma FormatOrderNotBlank(items: seq<OrderItem>)
    requires |items| > 0 && PlainName(items[0].name)
    ensures Strip(FormatOrder(items)) != ""
  {
    var first := FormatLine(items[0]);
    assert '|' in first by {
      SplitFormatLine(items[0]);
      SplitSeveral(first, '|');
    }
    assert '|' in first + "\n";
    NotBlank(first + "\n", FormatOrder(items[1..]), '|');
  }
}
