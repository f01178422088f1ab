/** The parser on sample payload shapes: a full
    four-line label, an order that does not start with '4', a lower-case
    "cep" marker and two competing "CEP" lines. Each is stated for every
    payload of that shape and then for a sample literal. */
module LabelExamples {
  import opened Wrappers
  import opened PyStr
  import opened LabelParser

  /** A line starting with "CEP" in any case mentions a postal code. */
  lemma StartsWithCepMarker(line: string)
    requires |line| >= 3 && line[0] in "cC" && line[1] in "eE" && line[2] in "pP"
    ensures MentionsCep(line)
  {
    var u := Upper(line);
    assert u[0] == 'C' && u[1] == 'E' && u[2] == 'P';
    assert "CEP" <= u;
  }

  /** A line without any 'c' or 'C' does not mention a postal code. */
  lemma NoCepMarker(line: string)
    requires 'c' !in line && 'C' !in line
    ensures !MentionsCep(line)
  {
    var u := Upper(line);
    forall k | 0 <= k < |u| ensures u[k] != 'C' {
      assert line[k] != 'c' && line[k] != 'C';
    }
    NotContainsWithoutHead(u, "CEP");
  }

  /** The first `c` in `head + [c] + tail` is the one after `head` when
      `head` has none. */
  lemma FindAfterHead(head: string, c: char, tail: string)
    requires c !in head
    ensures Find(head + [c] + tail, c) == |head|
  {
    var s := head + [c] + tail;
    assert s[|head|] == c;
    assert forall k :: 0 <= k < |head| ==> s[k] == head[k];
  }

  /** One leading space in front of trimmed text is all `Strip` removes. */
  lemma StripOneSpace(value: string)
    requires IsTrimmed(value)
    ensures Strip(" " + value) == value
  {
    var rest := " " + value;
    assert rest[1..] == value;
    assert LeadingSpaces(rest) == 1 + LeadingSpaces(value);
    StripKeepsTrimmed(value);
  }

  /** In `marker + ": " + value`, with no colon in either part and no
      whitespace around the value, the text after the first colon is the
      value. */
  lemma FieldAfterColon(marker: string, value: string)
    requires ':' !in marker && ':' !in value && IsTrimmed(value)
    ensures ':' in marker + ": " + value
    ensures AfterFirstColon(marker + ": " + value) == value
  {
    var line := marker + ": " + value;
    var rest := " " + value;
    assert line == marker + [':'] + rest;
    FindAfterHead(marker, ':', rest);
    assert line[|marker| + 1..] == rest;
    assert ':' !in rest by {
      assert forall k :: 1 <= k < |rest| ==> rest[k] == value[k - 1];
    }
    assert rest[..|rest|] == rest;
    StripOneSpace(value);
  }

  /** The "CEP" marker is recognised whatever its case: a line
      `marker + ": " + value` sets the postal code to `value`. */
  lemma CepMarkerIgnoresCase(marker: string, value: string)
    requires |marker| == 3 && marker[0] in "cC" && marker[1] in "eE" && marker[2] in "pP"
    requires ':' !in value && IsTrimmed(value)
    ensures CepOf([marker + ": " + value]) == value
  {
    var line := marker + ": " + value;
    StartsWithCepMarker(line);
    FieldAfterColon(marker, value);
    CepIsLastCepLine([line], 0);
  }

  /** The sample line "cep: 12345-678" gives the postal code
      "12345-678". */
  lemma LowerCaseCepExample(marker: string, value: string)
    requires marker == "cep" && value == "12345-678"
    ensures CepOf([marker + ": " + value]) == value
  {
    CepMarkerIgnoresCase(marker, value);
  }

  /** Of two "CEP" lines the second one sets the postal code. */
  lemma LaterCepLineWins(first: string, second: string)
    requires ':' !in second && IsTrimmed(second)
    ensures CepOf(["CEP: " + first, "CEP: " + second]) == second
  {
    CepLineOf(second);
    CepOfLastLine(["CEP: " + first, "CEP: " + second]);
  }

  /** Four lines without line breaks, joined by "\n", split back into the
      same four lines. */
  lemma LinesOfFour(a: string, b: string, c: string, d: string)
    requires '\n' !in a && '\n' !in b && '\n' !in c && '\n' !in d
    ensures Lines(a + "\n" + b + "\n" + c + "\n" + d) == [a, b, c, d]
  {
    var lines := [a, b, c, d];
    assert lines[1..] == [b, c, d];
    assert [b, c, d][1..] == [c, d];
    assert [c, d][1..] == [d];
    assert Join([c, d], '\n') == c + "\n" + d;
    assert Join([b, c, d], '\n') == b + "\n" + (c + "\n" + d);
    assert Join(lines, '\n') == a + "\n" + (b + "\n" + (c + "\n" + d));
    assert a + "\n" + (b + "\n" + (c + "\n" + d)) == a + "\n" + b + "\n" + c + "\n" + d;
    SplitJoin(lines, '\n');
  }

  /** What a four-line label (name, street, "CEP: " line, order) needs of
      its parts: no line breaks, no surrounding whitespace, the street line
      is the only one naming a street, the postal code has no colon, and
      only the last line is an order number. */
  predicate FourLineParts(name: string, street: string, cep: string, order: string) {
    && '\n' !in name && IsTrimmed(name)
    && !MentionsStreet(name) && !IsCepLine(name) && !IsOrderNumber(name)
    && '\n' !in street && IsTrimmed(street)
    && MentionsStreet(street) && !IsCepLine(street) && !IsOrderNumber(street)
    && '\n' !in cep && ':' !in cep && IsTrimmed(cep)
    && IsOrderNumber(order)
  }

  /** The four lines, joined by line breaks, split back into exactly those
      four lines. */
  lemma FourLineSplit(name: string, street: string, cep: string, order: string)
    requires '\n' !in name && '\n' !in street && '\n' !in cep && IsDigits(order)
    ensures Lines(name + "\n" + street + "\n" + ("CEP: " + cep) + "\n" + order)
      == [name, street, "CEP: " + cep, order]
  {
    var cepLine := "CEP: " + cep;
    assert '\n' !in order by {
      assert forall k :: 0 <= k < |order| ==> order[k] != '\n';
    }
    assert '\n' !in cepLine by {
      assert forall k :: 5 <= k < |cepLine| ==> cepLine[k] == cep[k - 5];
    }
    LinesOfFour(name, street, cepLine, order);
  }

  /** In the four-line payload the name is the first line and the address
      the street line. */
  lemma FourLineNameAndAddress(name: string, street: string, cep: string, order: string)
    requires IsTrimmed(name) && IsTrimmed(street)
    requires !MentionsStreet(name) && MentionsStreet(street)
    ensures var lines := [name, street, "CEP: " + cep, order];
      NameOf(lines) == name && AddressOf(lines) == street
  {
    var lines := [name, street, "CEP: " + cep, order];
    assert NameOf(lines) == name by {
      StripKeepsTrimmed(name);
    }
    assert lines[0] == name && lines[1] == street;
    AddressIsFirstStreetLine(lines, 1);
    StripKeepsTrimmed(street);
  }

  /** `"CEP: " + cep`, for a trimmed `cep` without colons, is a CEP line
      that sets the postal code to `cep`. */
  lemma CepLineOf(cep: string)
    requires ':' !in cep && IsTrimmed(cep)
    ensures IsCepLine("CEP: " + cep) && AfterFirstColon("CEP: " + cep) == cep
  {
    var cepLine := "CEP: " + cep;
    StartsWithCepMarker(cepLine);
    FieldAfterColon("CEP", cep);
    assert "CEP" + ": " + cep == cepLine;
  }

  /** A line of digits has no colon, so it never sets the postal code. */
  lemma DigitsNotCepLine(digits: string)
    requires IsDigits(digits)
    ensures ':' !in digits && !IsCepLine(digits)
  {
    assert forall k :: 0 <= k < |digits| ==> digits[k] != ':';
  }

  /** In the four-line payload the postal code is the text after the colon
      of the "CEP: " line. */
  lemma FourLineCep(name: string, street: string, cep: string, order: string)
    requires !IsCepLine(name) && !IsCepLine(street) && IsDigits(order)
    requires ':' !in cep && IsTrimmed(cep)
    ensures CepOf([name, street, "CEP: " + cep, order]) == cep
  {
    var cepLine := "CEP: " + cep;
    var lines := [name, street, cepLine, order];
    DigitsNotCepLine(order);
    CepOfOtherLine(lines);
    assert lines[..3] == [name, street, cepLine];
    CepLineOf(cep);
    CepOfLastLine([name, street, cepLine]);
  }

  /** A "CEP: " line is never an order number, stripped or not. */
  lemma CepLineIsNoOrder(cep: string)
    ensures !IsOrderNumber("CEP: " + cep) && !IsOrderNumber(Strip("CEP: " + cep))
  {
    var line := "CEP: " + cep;
    assert line[0] == 'C';
    var r := Strip(line);
    if |r| > 0 {
      assert r[0] == 'C';
    }
  }

  /** In the four-line payload the collection order is the last line, the
      first three being no order number. */
  lemma FourLineOrder(name: string, street: string, cep: string, order: string)
    requires IsTrimmed(name) && IsTrimmed(street)
    requires !IsOrderNumber(name) && !IsOrderNumber(street) && IsOrderNumber(order)
    ensures OrderOf([name, street, "CEP: " + cep, order]) == Some(order)
  {
    var lines := [name, street, "CEP: " + cep, order];
    forall j | 0 <= j < 3 ensures !IsOrderNumber(Strip(lines[j])) {
      if j == 0 {
        StripKeepsTrimmed(name);
      } else if j == 1 {
        StripKeepsTrimmed(street);
      } else {
        CepLineIsNoOrder(cep);
      }
    }
    assert Strip(lines[3]) == order by {
      StripKeepsTrimmed(order);
    }
    OrderIsFirstOrderLine(lines, 3);
  }

  /** A four-line payload (name, street, "CEP: " line, order) parses into
      exactly those four fields. */
  lemma FourLineLabel(name: string, street: string, cep: string, order: string)
    requires FourLineParts(name, street, cep, order)
    ensures ParseLabel(name + "\n" + street + "\n" + ("CEP: " + cep) + "\n" + order)
      == Success(Label(name, street, cep, order))
  {
    FourLineSplit(name, street, cep, order);
    FourLineNameAndAddress(name, street, cep, order);
    FourLineCep(name, street, cep, order);
    FourLineOrder(name, street, cep, order);
  }

  /** The sample label's first line has no line break, no
      surrounding whitespace, and is no order number. */
  lemma ExampleNameShape(name: string)
    requires name == "João Silva"
    ensures '\n' !in name && IsTrimmed(name) && !IsOrderNumber(name)
  {
  }

  /** The sample label's first line names no street. */
  lemma ExampleNameIsNoStreet(name: string)
    requires name == "João Silva"
    ensures !MentionsStreet(name)
  {
    NotContainsWithoutHead(name, "Rua");
    NotContainsWithoutHead(name, "Av");
  }

  /** The sample label's second line has no line break, no
      surrounding whitespace, and is no order number. */
  lemma ExampleStreetShape(street: string)
    requires street == "Rua das Flores, 123"
    ensures '\n' !in street && IsTrimmed(street) && !IsOrderNumber(street)
  {
  }

  /** The sample label's second line names a street. */
  lemma ExampleStreetMentionsStreet(street: string)
    requires street == "Rua das Flores, 123"
    ensures MentionsStreet(street)
  {
    assert "Rua" <= street;
  }

  /** Neither of the sample label's first two lines names a postal code. */
  lemma ExampleLinesAreNoCepLines(name: string, street: string)
    requires name == "João Silva" && street == "Rua das Flores, 123"
    ensures !IsCepLine(name) && !IsCepLine(street)
  {
    NoCepMarker(name);
    NoCepMarker(street);
  }

  /** The sample label, "João Silva", "Rua das Flores, 123",
      "CEP: 01000-000", "412345678", parses into its four fields. The
      lines are parameters so that the verifier does not evaluate the
      parser on the literal payload. */
  lemma FullLabelExample(name: string, street: string, cep: string, order: string)
    requires name == "João Silva" && street == "Rua das Flores, 123"
    requires cep == "01000-000" && order == "412345678"
    ensures ParseLabel(name + "\n" + street + "\n" + ("CEP: " + cep) + "\n" + order)
      == Success(Label(name, street, cep, order))
  {
    ExampleNameShape(name);
    ExampleNameIsNoStreet(name);
    ExampleStreetShape(street);
    ExampleStreetMentionsStreet(street);
    ExampleLinesAreNoCepLines(name, street);
    FourLineLabel(name, street, cep, order);
  }

  /** Two lines, the second nine digits not starting with '4': parsing
      fails with the missing-order error. */
  lemma OrderMustStartWithFour(name: string, digits: string)
    requires '\n' !in name && !IsOrderNumber(Strip(name))
    requires IsDigits(digits) && digits[0] != '4'
    ensures ParseLabel(name + "\n" + digits) == Failure(MissingOrder)
  {
    TwoLines(name, digits);
    var lines := [name, digits];
    forall j | 0 <= j < 2 ensures !IsOrderNumber(Strip(lines[j])) {
      if j == 1 {
        StripKeepsTrimmed(digits);
      }
    }
    OrderMissing(lines);
  }

  /** A name line and a line of digits split back into those two lines. */
  lemma TwoLines(name: string, digits: string)
    requires '\n' !in name && IsDigits(digits)
    ensures Lines(name + "\n" + digits) == [name, digits]
  {
    var lines := [name, digits];
    assert forall k :: 0 <= k < |digits| ==> digits[k] != '\n';
    assert Join(lines, '\n') == name + "\n" + digits;
    SplitJoin(lines, '\n');
  }

  /** The sample payload "Maria\n312345678" fails for want of an order. */
  lemma WrongPrefixExample(name: string, digits: string)
    requires name == "Maria" && digits == "312345678"
    ensures ParseLabel(name + "\n" + digits) == Failure(MissingOrder)
  {
    OrderMustStartWithFour(name, digits);
  }
}
