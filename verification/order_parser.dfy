/** The "add everything" handler's parser: the text the language model
    returns is split into lines, and every line holding a `|` is read as
    `PRODUCT | QUANTITY | SUBTOTAL`.  A `float()` that fails, or a missing
    third field, raises in the middle of the loop: the lines before it have
    already been appended to the cart and the rest are never looked at. */
module OrderParser {
  import opened Wrappers
  import opened Text
  import opened Numbers
  import opened Records

  /** Why a line with a `|` stopped the batch. */
  datatype LineError =
    | BadQuantity      // the second field does not read as a number
    | MissingSubtotal  // the line has only two fields
    | BadSubtotal      // the third field does not read as a number

  datatype LineResult = NoEntry | Entry(line: CartLine) | Fails(error: LineError)

  /** The entries appended before the batch stopped, and why it stopped, if it did. */
  datatype Batch = Batch(entries: seq<CartLine>, failure: Option<LineError>)

  /** One line of the model's answer: no entry without a `|`. */
  function ParseLine(l: string): (r: LineResult)
    ensures r.NoEntry? <==> '|' !in l
  {
    if '|' !in l then NoEntry
    else
      SplitSeveral(l, '|');
      ReadParts(Split(l, '|'))
  }

  /** The fields of a line holding a `|`, read in the order the loop body reads them. */
  function ReadParts(parts: seq<string>): (r: LineResult)
    requires |parts| >= 2
    ensures !r.NoEntry?
  {
    match ParseNum(Strip(parts[1]))
    case None => Fails(BadQuantity)
    case Some(cant) =>
      if |parts| < 3 then Fails(MissingSubtotal)
      else match ParseNum(Strip(parts[2]))
        case None => Fails(BadSubtotal)
        case Some(subtotal) => Entry(CartLine(Strip(parts[0]), cant, UnitPrice(subtotal, cant), subtotal))
  }

  /** An entry's fields: the first field stripped is the product, the second
      and third read as numbers are the quantity and the subtotal. */
  lemma ParsedFields(l: string)
    requires ParseLine(l).Entry?
    ensures var e, parts := ParseLine(l).line, Split(l, '|');
      && |parts| >= 3
      && e.producto == Strip(parts[0])
      && ParseNum(Strip(parts[1])) == Some(e.cant)
      && ParseNum(Strip(parts[2])) == Some(e.subtotal)
  {
    SplitSeveral(l, '|');
    ReadPartsFields(Split(l, '|'));
  }

  lemma ReadPartsFields(parts: seq<string>)
    requires |parts| >= 2 && ReadParts(parts).Entry?
    ensures var e := ReadParts(parts).line;
      && |parts| >= 3
      && e.producto == Strip(parts[0])
      && ParseNum(Strip(parts[1])) == Some(e.cant)
      && ParseNum(Strip(parts[2])) == Some(e.subtotal)
  {
    var cant, subtotal := ParseNum(Strip(parts[1])), ParseNum(Strip(parts[2]));
    assert cant.Some? && subtotal.Some?;
    assert ReadParts(parts).line == CartLine(Strip(parts[0]), cant.value, UnitPrice(subtotal.value, cant.value), subtotal.value);
  }

  /** Three fields whose second and third read as numbers make an entry. */
  lemma ReadPartsEntry(parts: seq<string>, cant: real, subtotal: real)
    requires |parts| >= 3
    requires ParseNum(Strip(parts[1])) == Some(cant) && ParseNum(Strip(parts[2])) == Some(subtotal)
    ensures ReadParts(parts) == Entry(CartLine(Strip(parts[0]), cant, UnitPrice(subtotal, cant), subtotal))
  {
  }

  /** An entry's unit price times its quantity is its subtotal, unless the
      quantity is 0: then the price is 0 and the subtotal is kept as read. */
  lemma ParsedPrice(l: string)
    requires ParseLine(l).Entry?
    ensures var e := ParseLine(l).line;
      && (e.cant != 0.0 ==> Consistent(e))
      && (e.cant == 0.0 ==> e.precio == 0.0)
  {
    SplitSeveral(l, '|');
    ReadPartsPrice(Split(l, '|'));
    PriceFacts(ParseLine(l).line);
  }

  /** The unit price of an entry is derived from its subtotal and quantity. */
  lemma ReadPartsPrice(parts: seq<string>)
    requires |parts| >= 2 && ReadParts(parts).Entry?
    ensures var e := ReadParts(parts).line; e.precio == UnitPrice(e.subtotal, e.cant)
  {
    var cant, subtotal := ParseNum(Strip(parts[1])), ParseNum(Strip(parts[2]));
    assert cant.Some? && subtotal.Some?;
    assert ReadParts(parts).line == CartLine(Strip(parts[0]), cant.value, UnitPrice(subtotal.value, cant.value), subtotal.value);
  }

  lemma PriceFacts(e: CartLine)
    requires e.precio == UnitPrice(e.subtotal, e.cant)
    ensures e.cant != 0.0 ==> Consistent(e)
    ensures e.cant == 0.0 ==> e.precio == 0.0
  {
    UnitPriceInverse(e.subtotal, e.cant);
  }

  /** A line with a `|` fails exactly when its quantity does not read as a
      number, or it has no third field, or that field does not read as a number. */
  lemma ParsedFailure(l: string)
    requires '|' in l
    ensures var parts := Split(l, '|');
      ParseLine(l).Fails? <==>
        ParseNum(Strip(parts[1])).None? || |parts| < 3 || ParseNum(Strip(parts[2])).None?
  {
    SplitSeveral(l, '|');
  }

  /** The lines holding a `|`, in input order. */
  function PipedLines(ls: seq<string>): seq<string>
  {
    if |ls| == 0 then []
    else if '|' in ls[0] then [ls[0]] + PipedLines(ls[1..])
    else PipedLines(ls[1..])
  }

  /** The loop over the lines with a given line reader: entries in input
      order up to the first line that raises; later lines are not read. */
  function Gather(ls: seq<string>, parse: string -> LineResult): Batch
  {
    if |ls| == 0 then Batch([], None)
    else
      match parse(ls[0])
      case NoEntry => Gather(ls[1..], parse)
      case Entry(e) =>
        var rest := Gather(ls[1..], parse);
        Batch([e] + rest.entries, rest.failure)
      case Fails(w) => Batch([], Some(w))
  }

  /** An entry in front of the rest of the batch. */
  lemma GatherCons(ls: seq<string>, parse: string -> LineResult, e: CartLine, rest: Batch)
    requires |ls| > 0 && parse(ls[0]) == Entry(e) && Gather(ls[1..], parse) == rest
    ensures Gather(ls, parse) == Batch([e] + rest.entries, rest.failure)
  {
  }

  /** The lines a reader does not pass over, in input order. */
  function Kept(ls: seq<string>, parse: string -> LineResult): seq<string>
  {
    if |ls| == 0 then []
    else if parse(ls[0]).NoEntry? then Kept(ls[1..], parse)
    else [ls[0]] + Kept(ls[1..], parse)
  }

  /** The loop goes through exactly when no line raises. */
  lemma {:induction false} GatherSucceeds(ls: seq<string>, parse: string -> LineResult)
    ensures Gather(ls, parse).failure.None? <==> forall k :: 0 <= k < |ls| ==> !parse(ls[k]).Fails?
    decreases |ls|
  {
    if |ls| > 0 {
      GatherSucceeds(ls[1..], parse);
      assert forall k :: 1 <= k < |ls| ==> ls[k] == ls[1..][k - 1];
    }
  }

  /** When the loop goes through, the k-th entry is the reading of the k-th
      line that is not passed over. */
  lemma {:induction false} GatherEntries(ls: seq<string>, parse: string -> LineResult)
    requires Gather(ls, parse).failure.None?
    ensures |Gather(ls, parse).entries| == |Kept(ls, parse)|
    ensures forall k :: 0 <= k < |Kept(ls, parse)| ==>
      parse(Kept(ls, parse)[k]) == Entry(Gather(ls, parse).entries[k])
    decreases |ls|
  {
    if |ls| > 0 {
      GatherEntries(ls[1..], parse);
    }
  }

  /** Reading `a` then `b`: if `a` raises, `b` is never read; otherwise the
      entries of `b` follow those of `a`. */
  lemma {:induction false} GatherAppend(a: seq<string>, b: seq<string>, parse: string -> LineResult)
    ensures Gather(a + b, parse) ==
      var ra := Gather(a, parse);
      if ra.failure.Some? then ra
      else var rb := Gather(b, parse); Batch(ra.entries + rb.entries, rb.failure)
    decreases |a|
  {
    if |a| == 0 {
      assert a + b == b;
    } else {
      assert (a + b)[1..] == a[1..] + b;
      GatherAppend(a[1..], b, parse);
    }
  }

  /** The "add everything" loop over the lines of the answer. */
  function ParseLines(ls: seq<string>): Batch
  {
    Gather(ls, ParseLine)
  }

  /** The whole answer, cut at every line break and read line by line.  It
      goes through exactly when no line raises, and an answer without a
      single `|` (prose, a refusal, an empty answer) adds nothing. */
  function ParseOrder(text: string): (r: Batch)
    ensures r.failure.None? <==> NoneFails(Split(text, '\n'))
    ensures '|' !in text ==> r == Batch([], None)
  {
    ParseLinesSucceeds(Split(text, '\n'));
    NoSeparatorLines(text);
    ParseLines(Split(text, '\n'))
  }

  /** The lines of a text without `|` add nothing and raise nothing. */
  lemma NoSeparatorLines(text: string)
    ensures '|' !in text ==> ParseLines(Split(text, '\n')) == Batch([], None)
  {
    if '|' !in text {
      SplitAvoids(text, '\n', '|');
      GatherNothing(Split(text, '\n'), ParseLine);
    }
  }

  /** A final line break makes no difference: the empty last line it opens
      holds no `|`. */
  lemma TrailingBreak(t: string)
    ensures ParseOrder(t + "\n") == ParseOrder(t)
  {
    var ls := Split(t, '\n');
    assert t + "\n" == t + ['\n'] + "";
    SplitAppend(t, '\n', "");
    assert Split("", '\n') == [""];
    GatherAppend(ls, [""], ParseLine);
    assert ParseLine("") == NoEntry;
    assert Gather([""], ParseLine) == Batch([], None);
  }

  /** The line parser passes over exactly the lines without a `|`. */
  lemma {:induction false} KeptPiped(ls: seq<string>)
    ensures Kept(ls, ParseLine) == PipedLines(ls)
    decreases |ls|
  {
    if |ls| > 0 {
      KeptPiped(ls[1..]);
    }
  }

  /** No line of `ls` raises. */
  predicate NoneFails(ls: seq<string>)
  {
    forall k :: 0 <= k < |ls| ==> !ParseLine(ls[k]).Fails?
  }

  /** The batch goes through exactly when no line raises. */
  lemma ParseLinesSucceeds(ls: seq<string>)
    ensures ParseLines(ls).failure.None? <==> NoneFails(ls)
  {
    GatherSucceeds(ls, ParseLine);
  }

  /** When the batch goes through there is exactly one entry per line holding
      a `|`, in input order, and it is that line's parse. */
  lemma ParseLinesEntries(ls: seq<string>)
    requires ParseLines(ls).failure.None?
    ensures |ParseLines(ls).entries| == |PipedLines(ls)|
    ensures forall k :: 0 <= k < |PipedLines(ls)| ==>
      ParseLine(PipedLines(ls)[k]) == Entry(ParseLines(ls).entries[k])
  {
    GatherEntries(ls, ParseLine);
    KeptPiped(ls);
  }

  /** A line that raises stops the batch: the entries of the lines before it
      stay, the lines after it are never read. */
  lemma StopsAtFirstFailure(ls: seq<string>, j: nat)
    requires j < |ls| && ParseLine(ls[j]).Fails?
    requires forall k :: 0 <= k < j ==> !ParseLine(ls[k]).Fails?
    ensures ParseLines(ls[..j]).failure.None?
    ensures ParseLines(ls) == Batch(ParseLines(ls[..j]).entries, Some(ParseLine(ls[j]).error))
  {
    GatherStops(ls, ParseLine, j);
  }

  lemma GatherStops(ls: seq<string>, parse: string -> LineResult, j: nat)
    requires j < |ls| && parse(ls[j]).Fails?
    requires forall k :: 0 <= k < j ==> !parse(ls[k]).Fails?
    ensures Gather(ls[..j], parse).failure.None?
    ensures Gather(ls, parse) == Batch(Gather(ls[..j], parse).entries, Some(parse(ls[j]).error))
  {
    assert ls == ls[..j] + ls[j..];
    GatherSucceeds(ls[..j], parse);
    GatherAppend(ls[..j], ls[j..], parse);
    assert ls[j..][0] == ls[j];
  }

  /** With no line the reader keeps, the batch is empty and goes through. */
  lemma {:induction false} GatherNothing(ls: seq<string>, parse: string -> LineResult)
    requires forall k :: 0 <= k < |ls| ==> parse(ls[k]).NoEntry?
    ensures Gather(ls, parse) == Batch([], None)
    decreases |ls|
  {
    if |ls| > 0 {
      assert parse(ls[0]).NoEntry?;
      assert forall k :: 0 <= k < |ls[1..]| ==> ls[1..][k] == ls[k + 1];
      GatherNothing(ls[1..], parse);
    }
  }

  /** Fields after the third are ignored. */
  lemma ExtraFieldsIgnored(l: string, extra: string)
    requires |Split(l, '|')| >= 3
    ensures ParseLine(l + "|" + extra) == ParseLine(l)
  {
    SplitSeveral(l, '|');
    var longer := l + "|" + extra;
    assert longer == l + ['|'] + extra;
    SplitAppend(l, '|', extra);
    assert '|' in longer;
    SplitSeveral(longer, '|');
    var parts := Split(l, '|');
    assert Split(longer, '|')[..3] == parts[..3];
    ReadPartsPrefix(parts, Split(longer, '|'));
  }

  /** Only the first three fields are read. */
  lemma ReadPartsPrefix(p: seq<string>, q: seq<string>)
    requires |p| >= 3 && |q| >= 3 && p[..3] == q[..3]
    ensures ReadParts(p) == ReadParts(q)
  {
    assert p[0] == q[0] && p[1] == q[1] && p[2] == q[2] by {
      assert p[0] == p[..3][0] && p[1] == p[..3][1] && p[2] == p[..3][2];
      assert q[0] == q[..3][0] && q[1] == q[..3][1] && q[2] == q[..3][2];
    }
  }
}
