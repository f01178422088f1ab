/** The delivery-label parser of `ler_qr_camera`: a scanned multi-line
    payload becomes a label record (recipient name, address, postal code
    and collection order), or fails when no collection order is present.
    Each field has its own function; the two field scans that the program
    writes as `for` loops also have a method with the loop, proved equal to
    the function. */
module LabelParser {
  import opened Wrappers
  import opened PyStr

  /** The parsed delivery label: `nome`, `endereco`, `cep`, `ordem_coleta`. */
  datatype Label = Label(nome: string, endereco: string, cep: string, ordemColeta: string)

  const DefaultName: string := "Destinatário"
  const NoAddress: string := "Endereço não encontrado"
  const DefaultCep: string := "00000-000"
  const MissingOrder: string := "Número da ordem de coleta não encontrado."

  /** The payload's lines, as `split("\n")` gives them. */
  function Lines(payload: string): (lines: seq<string>)
    ensures |lines| >= 1
    ensures Join(lines, '\n') == payload
  {
    JoinSplit(payload, '\n');
    Split(payload, '\n')
  }

  // ---------------------------------------------------------------- name

  /** `nome`: the stripped first line, with a placeholder for no lines. */
  function NameOf(lines: seq<string>): string
  {
    if |lines| > 0 then Strip(lines[0]) else DefaultName
  }

  /** The name is always the stripped text before the first line break: the
      placeholder branch is never taken, as a split has at least one piece. */
  lemma NameIsFirstLine(payload: string)
    ensures NameOf(Lines(payload)) == Strip(payload[..Find(payload, '\n')])
  {
    SplitPieces(payload, '\n');
  }

  // ------------------------------------------------------------- address

  /** A line names a street when it contains "Rua" or "Av", case-sensitively. */
  predicate MentionsStreet(line: string) {
    Contains(line, "Rua") || Contains(line, "Av")
  }

  /** `endereco`: the first street line, stripped, or the placeholder. */
  function AddressOf(lines: seq<string>): string
  {
    if |lines| == 0 then NoAddress
    else if MentionsStreet(lines[0]) then Strip(lines[0])
    else AddressOf(lines[1..])
  }

  /** The address is the first line that mentions a street, stripped. */
  lemma {:induction false} AddressIsFirstStreetLine(lines: seq<string>, i: nat)
    requires i < |lines| && MentionsStreet(lines[i])
    requires forall j :: 0 <= j < i ==> !MentionsStreet(lines[j])
    ensures AddressOf(lines) == Strip(lines[i])
  {
    if i > 0 {
      assert !MentionsStreet(lines[0]);
      AddressIsFirstStreetLine(lines[1..], i - 1);
    }
  }

  /** With no street line the address is the placeholder. */
  lemma {:induction false} AddressDefault(lines: seq<string>)
    requires forall j :: 0 <= j < |lines| ==> !MentionsStreet(lines[j])
    ensures AddressOf(lines) == NoAddress
  {
    if |lines| > 0 {
      assert !MentionsStreet(lines[0]);
      AddressDefault(lines[1..]);
    }
  }

  // ---------------------------------------------------------- postal code

  /** A line marks a postal code when its upper-cased form contains "CEP". */
  predicate MentionsCep(line: string) {
    Contains(Upper(line), "CEP")
  }

  /** A line that sets the postal code: it mentions "CEP" and has a colon. */
  predicate IsCepLine(line: string) {
    MentionsCep(line) && ':' in line
  }

  /** The text between the first and the second colon of `line` (or the end
      of the line), stripped. */
  function AfterFirstColon(line: string): string
    requires ':' in line
  {
    var rest := line[Find(line, ':') + 1..];
    Strip(rest[..Find(rest, ':')])
  }

  /** One iteration of the postal-code loop: a "CEP" line split on ':' into
      more than one piece replaces `cep` by its second piece, stripped. */
  function CepStep(cep: string, line: string): string
  {
    if MentionsCep(line) then
      var parts := Split(line, ':');
      if |parts| > 1 then Strip(parts[1]) else cep
    else cep
  }

  /** `cep` after the loop has run over all of `lines`. */
  function CepOf(lines: seq<string>): string
    decreases |lines|
  {
    if |lines| == 0 then DefaultCep
    else CepStep(CepOf(lines[..|lines| - 1]), lines[|lines| - 1])
  }

  /** The postal-code loop: no `break`, so every "CEP" line with a colon
      overwrites what an earlier one set. */
  method ExtractCep(lines: seq<string>) returns (cep: string)
    ensures cep == CepOf(lines)
  {
    cep := DefaultCep;
    for i := 0 to |lines|
      invariant cep == CepOf(lines[..i])
    {
      assert lines[..i + 1][..i] == lines[..i];
      if MentionsCep(lines[i]) {
        var parts := Split(lines[i], ':');
        if |parts| > 1 {
          cep := Strip(parts[1]);
        }
      }
    }
    assert lines[..|lines|] == lines;
  }

  /** A step on a line that is not a CEP line leaves the postal code alone;
      on a CEP line it takes the text after the first colon. */
  lemma CepStepCases(cep: string, line: string)
    ensures !IsCepLine(line) ==> CepStep(cep, line) == cep
    ensures IsCepLine(line) ==> CepStep(cep, line) == AfterFirstColon(line)
  {
    SplitHasSecondPiece(line, ':');
    SplitPieces(line, ':');
  }

  /** A last line that is a CEP line sets the postal code. */
  lemma CepOfLastLine(lines: seq<string>)
    requires |lines| > 0 && IsCepLine(lines[|lines| - 1])
    ensures CepOf(lines) == AfterFirstColon(lines[|lines| - 1])
  {
    CepStepCases(CepOf(lines[..|lines| - 1]), lines[|lines| - 1]);
  }

  /** A last line that is not a CEP line leaves the postal code alone. */
  lemma CepOfOtherLine(lines: seq<string>)
    requires |lines| > 0 && !IsCepLine(lines[|lines| - 1])
    ensures CepOf(lines) == CepOf(lines[..|lines| - 1])
  {
    CepStepCases(CepOf(lines[..|lines| - 1]), lines[|lines| - 1]);
  }

  /** The postal code comes from the LAST CEP line: the text between its
      first and second colon, stripped. */
  lemma {:induction false} CepIsLastCepLine(lines: seq<string>, i: nat)
    requires i < |lines| && IsCepLine(lines[i])
    requires forall j :: i < j < |lines| ==> !IsCepLine(lines[j])
    ensures CepOf(lines) == AfterFirstColon(lines[i])
    decreases |lines|
  {
    var init := lines[..|lines| - 1];
    if i == |lines| - 1 {
      CepOfLastLine(lines);
    } else {
      CepOfOtherLine(lines);
      forall j | i < j < |init| ensures !IsCepLine(init[j]) {
        assert init[j] == lines[j];
      }
      CepIsLastCepLine(init, i);
    }
  }

  /** With no CEP line the postal code is "00000-000". */
  lemma {:induction false} CepDefault(lines: seq<string>)
    requires forall j :: 0 <= j < |lines| ==> !IsCepLine(lines[j])
    ensures CepOf(lines) == DefaultCep
    decreases |lines|
  {
    if |lines| > 0 {
      CepOfOtherLine(lines);
      CepDefault(lines[..|lines| - 1]);
    }
  }

  // ----------------------------------------------------- collection order

  /** A collection order: nine decimal digits, the first a '4'. */
  predicate IsOrderNumber(t: string) {
    IsDigits(t) && StartsWith(t, "4") && |t| == 9
  }

  /** `ordem_coleta`: the first line whose stripped form is an order number. */
  function OrderOf(lines: seq<string>): Option<string>
  {
    if |lines| == 0 then None
    else if IsOrderNumber(Strip(lines[0])) then Some(Strip(lines[0]))
    else OrderOf(lines[1..])
  }

  /** The collection-order loop, which stops at the first match. */
  method ExtractOrder(lines: seq<string>) returns (ordem: Option<string>)
    ensures ordem == OrderOf(lines)
  {
    ordem := None;
    for i := 0 to |lines|
      invariant ordem == None
      invariant OrderOf(lines[i..]) == OrderOf(lines)
    {
      assert lines[i..][1..] == lines[i + 1..];
      var clean := Strip(lines[i]);
      if IsOrderNumber(clean) {
        ordem := Some(clean);
        break;
      }
    }
  }

  /** The order is the stripped form of the first line that is an order
      number once stripped. */
  lemma {:induction false} OrderIsFirstOrderLine(lines: seq<string>, i: nat)
    requires i < |lines| && IsOrderNumber(Strip(lines[i]))
    requires forall j :: 0 <= j < i ==> !IsOrderNumber(Strip(lines[j]))
    ensures OrderOf(lines) == Some(Strip(lines[i]))
  {
    if i > 0 {
      assert !IsOrderNumber(Strip(lines[0]));
      OrderIsFirstOrderLine(lines[1..], i - 1);
    }
  }

  /** There is no order exactly when no line is an order number once stripped. */
  lemma {:induction false} OrderMissing(lines: seq<string>)
    ensures OrderOf(lines) == None <==> forall j :: 0 <= j < |lines| ==> !IsOrderNumber(Strip(lines[j]))
  {
    if |lines| > 0 {
      OrderMissing(lines[1..]);
      assert forall j :: 1 <= j < |lines| ==> lines[j] == lines[1..][j - 1];
    }
  }

  /** A found order is an order number, the stripped form of some line, and
      no earlier line qualifies. */
  lemma {:induction false} OrderFound(lines: seq<string>)
    requires OrderOf(lines).Some?
    ensures IsOrderNumber(OrderOf(lines).value)
    ensures exists i :: (0 <= i < |lines| && OrderOf(lines).value == Strip(lines[i]) &&
                         forall j :: 0 <= j < i ==> !IsOrderNumber(Strip(lines[j])))
  {
    var first := Strip(lines[0]);
    if IsOrderNumber(first) {
      assert OrderOf(lines).value == Strip(lines[0]);
    } else {
      var tail := lines[1..];
      assert OrderOf(lines) == OrderOf(tail);
      OrderFound(tail);
      var i :| 0 <= i < |tail| && OrderOf(tail).value == Strip(tail[i]) &&
        (forall j :: 0 <= j < i ==> !IsOrderNumber(Strip(tail[j])));
      assert tail[i] == lines[i + 1];
      forall j | 0 <= j < i + 1 ensures !IsOrderNumber(Strip(lines[j])) {
        if j > 0 {
          assert lines[j] == tail[j - 1];
        }
      }
    }
  }

  // --------------------------------------------------------------- label

  /** The whole parser: the four fields, failing only without an order. */
  function ParseLabel(payload: string): (r: Result<Label, string>)
    ensures r.Failure? ==> r.error == MissingOrder
  {
    var lines := Lines(payload);
    match OrderOf(lines)
    case None => Failure(MissingOrder)
    case Some(ordem) =>
      Success(Label(NameOf(lines), AddressOf(lines), CepOf(lines), ordem))
  }

  /** Parsing fails exactly when no line of the payload, stripped, is a
      collection order. */
  lemma ParseFailsWithoutOrder(payload: string)
    ensures ParseLabel(payload).Failure? <==>
      forall j :: 0 <= j < |Lines(payload)| ==> !IsOrderNumber(Strip(Lines(payload)[j]))
  {
    OrderMissing(Lines(payload));
  }

  /** A parsed order is nine digits starting with '4', is the stripped form
      of some payload line, and no earlier line qualifies. */
  lemma ParsedOrderIsFirstOrderLine(payload: string)
    requires ParseLabel(payload).Success?
    ensures var o := ParseLabel(payload).value.ordemColeta;
      && |o| == 9 && o[0] == '4'
      && (forall k :: 0 <= k < 9 ==> '0' <= o[k] <= '9')
      && (exists i :: 0 <= i < |Lines(payload)| && o == Strip(Lines(payload)[i]) &&
           (forall j :: 0 <= j < i ==> !IsOrderNumber(Strip(Lines(payload)[j]))))
  {
    OrderFound(Lines(payload));
  }

  /** The name of a parsed label is the stripped first line of the payload. */
  lemma ParsedNameIsFirstLine(payload: string)
    requires ParseLabel(payload).Success?
    ensures ParseLabel(payload).value.nome == Strip(payload[..Find(payload, '\n')])
  {
    NameIsFirstLine(payload);
  }
}

