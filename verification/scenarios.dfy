/** Worked examples of the register's behaviour, stated on concrete inputs. */
module Scenarios {
  import opened Wrappers
  import opened Text
  import opened Numbers
  import opened Records
  import opened OrderParser

  lemma CocaColaFields(l: string)
    requires l == "Coca Cola | 2 | 7000"
    ensures Split(l, '|') == ["Coca Cola ", " 2 ", " 7000"]
  {
    var fields := ["Coca Cola ", " 2 ", " 7000"];
    assert Join(fields[2..], '|') == " 7000";
    assert Join(fields[1..], '|') == " 2 | 7000";
    assert Join(fields, '|') == l;
    SplitJoin(fields, '|');
  }

  lemma SevenThousand()
    ensures AllDigits("7000") && DigitsValue("7000") == 7000
  {
    assert "7000"[..3] == "700" && "700"[..2] == "70" && "70"[..1] == "7";
    assert DigitsValue("7") == 7;
    assert DigitsValue("70") == 70;
    assert DigitsValue("700") == 700;
  }

  /** Digits between blanks read as the number they spell. */
  lemma ReadPaddedDigits(s: string, p: string, m: string, q: string)
    requires s == p + m + q && AllSpace(p) && AllSpace(q)
    requires |m| > 0 && AllDigits(m)
    ensures ParseNum(Strip(s)) == Some(DigitsValue(m) as real)
  {
    StripPadding(p, m, q);
    ParseNumDigits(m);
  }

  lemma ReadTwo(s: string)
    requires s == " 2 "
    ensures ParseNum(Strip(s)) == Some(2.0)
  {
    ReadPaddedDigits(s, " ", "2", " ");
  }

  lemma ReadSevenThousand(s: string)
    requires s == " 7000"
    ensures ParseNum(Strip(s)) == Some(7000.0)
  {
    assert s == " " + "7000" + "";
    StripPadding(" ", "7000", "");
    SevenThousand();
    ParseNumDigits("7000");
  }

  lemma ReadCocaCola(s: string)
    requires s == "Coca Cola "
    ensures Strip(s) == "Coca Cola"
  {
    assert s == "" + "Coca Cola" + " ";
    StripPadding("", "Coca Cola", " ");
  }

  /** The prompt's own example: two Coca Colas for 7000 cost 3500 each. */
  lemma CocaCola(l: string)
    requires l == "Coca Cola | 2 | 7000"
    ensures ParseLine(l) == Entry(CartLine("Coca Cola", 2.0, 3500.0, 7000.0))
  {
    CocaColaFields(l);
    var parts := Split(l, '|');
    ReadCocaCola(parts[0]);
    ReadTwo(parts[1]);
    ReadSevenThousand(parts[2]);
    SplitSeveral(l, '|');
    assert UnitPrice(7000.0, 2.0) == 3500.0;
  }

  /** Three lines joined by newlines split back into the same three lines. */
  lemma ThreeLines(text: string, a: string, b: string, c: string)
    requires text == a + "\n" + b + "\n" + c
    requires '\n' !in a && '\n' !in b && '\n' !in c
    ensures Split(text, '\n') == [a, b, c]
  {
    var bc := b + ['\n'] + c;
    assert text == a + ['\n'] + bc;
    SplitCons(a, '\n', bc);
    SplitCons(b, '\n', c);
    assert Split(c, '\n') == [c];
  }

  /** A stray word from the model adds nothing and raises nothing. */
  lemma StrayProse(text: string)
    requires text == "Leche\n"
    ensures ParseOrder(text) == Batch([], None)
  {
    assert '|' !in text;
  }

  lemma DosFields(l: string)
    requires l == "Leche | dos | 900"
    ensures Split(l, '|') == ["Leche ", " dos ", " 900"]
  {
    var fields := ["Leche ", " dos ", " 900"];
    assert Join(fields[2..], '|') == " 900";
    assert Join(fields[1..], '|') == " dos | 900";
    assert Join(fields, '|') == l;
    SplitJoin(fields, '|');
  }

  /** Text whose first character is not one a decimal literal is written
      with is not a number. */
  lemma NotANumber(s: string)
    requires |s| > 0 && !IsNumeral(s[0])
    ensures ParseNum(s) == None
  {
  }

  lemma ReadDos(s: string)
    requires s == " dos "
    ensures ParseNum(Strip(s)) == None
  {
    var p, m, q := s[..1], s[1..4], s[4..];
    assert s == p + m + q;
    StripPadding(p, m, q);
    NotANumber(m);
  }

  /** A quantity written in words makes the line fail. */
  lemma DosLine(l: string)
    requires l == "Leche | dos | 900"
    ensures ParseLine(l) == Fails(BadQuantity)
  {
    DosFields(l);
    var parts := Split(l, '|');
    ReadDos(parts[1]);
    SplitSeveral(l, '|');
  }

  /** A batch whose second line fails keeps its first line's entry. */
  lemma FailsAtSecond(ls: seq<string>, parse: string -> LineResult, e: CartLine, err: LineError)
    requires |ls| >= 2 && parse(ls[0]) == Entry(e) && parse(ls[1]) == Fails(err)
    ensures Gather(ls, parse) == Batch([e], Some(err))
  {
    assert ls[1..][0] == ls[1];
    assert Gather(ls[1..], parse) == Batch([], Some(err));
  }

  lemma WordQuantityLines(a: string, b: string, c: string)
    requires a == "Coca Cola | 2 | 7000" && b == "Leche | dos | 900"
    ensures ParseLines([a, b, c]) == Batch([CartLine("Coca Cola", 2.0, 3500.0, 7000.0)], Some(BadQuantity))
  {
    CocaCola(a);
    DosLine(b);
    FailsAtSecond([a, b, c], ParseLine, CartLine("Coca Cola", 2.0, 3500.0, 7000.0), BadQuantity);
  }

  /** A quantity in words raises at its line: the line before it is already
      in the cart and the line after it is never read. */
  lemma WordQuantity(text: string)
    requires text == "Coca Cola | 2 | 7000" + "\n" + "Leche | dos | 900" + "\n" + "Queso | 1 | 3000"
    ensures ParseOrder(text) == Batch([CartLine("Coca Cola", 2.0, 3500.0, 7000.0)], Some(BadQuantity))
  {
    var a, b, c := "Coca Cola | 2 | 7000", "Leche | dos | 900", "Queso | 1 | 3000";
    ThreeLines(text, a, b, c);
    WordQuantityLines(a, b, c);
  }
}
