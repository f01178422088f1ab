/** One press of the "Ler QR Code" button (`ler_qr_camera`): frames are read
    from the camera until one of them stops the loop, and the text of a
    detected QR code is parsed into a label whose files are then named.
    The camera is a finite sequence of frame events: whether the read
    succeeded, the texts the decoder found in the frame, and the key code
    the preview window returned. */
module ScanSession {
  import opened Wrappers
  import opened PyStr
  import opened LabelParser
  import opened LabelPaths

  /** One camera frame as the loop sees it. */
  datatype Frame = Frame(readOk: bool, codes: seq<string>, key: int)

  /** Why the scan loop stopped. */
  datatype ScanEnd = ReadFailed | Detected(payload: string) | QuitPressed

  /** What one frame does to the loop. */
  datatype Step = Continue | Stop(end: ScanEnd)

  /** What a session ends with, and the files a printed label uses. */
  datatype Outcome =
    | Scanning
    | NoQrDetected
    | ParseError(reason: string)
    | LabelIssued(issued: Label, pdfPath: string, barcodePath: string)

  /** The dialog box the session ends with. */
  datatype Notice = Warning(title: string, text: string)
                  | Info(title: string, text: string)
                  | Error(title: string, text: string)

  const NoQrText: string := "Nenhum QR code detectado."

  /** `extrair_texto_qr`: the text of the first symbol found in the frame,
      or nothing when the decoder found none. */
  function DecodedText(codes: seq<string>): Option<string>
  {
    if |codes| == 0 then None else Some(codes[0])
  }

  /** Python truthiness of the decoded text: present and not empty. */
  predicate HasText(t: Option<string>) {
    t.Some? && |t.value| > 0
  }

  /** The quit test of the preview window: the low byte of the key code is
      the code of 'q'. Masking the low byte equals the non-negative remainder
      modulo 256, also for the -1 returned when no key was pressed. */
  predicate IsQuitKey(key: int) {
    key % 256 == 'q' as int
  }

  /** The body of the scan loop on one frame: a failed read stops it first,
      then a frame with text, and only then the quit key. */
  function FrameStep(f: Frame): Step
  {
    if !f.readOk then Stop(ReadFailed)
    else
      var texto := DecodedText(f.codes);
      if HasText(texto) then Stop(Detected(texto.value))
      else if IsQuitKey(f.key) then Stop(QuitPressed)
      else Continue
  }

  predicate Stops(f: Frame) {
    FrameStep(f).Stop?
  }

  /** Index of the first frame that stops the loop, or `|frames|`. */
  function FirstStop(frames: seq<Frame>): (i: nat)
    ensures i <= |frames|
    ensures i < |frames| ==> Stops(frames[i])
    ensures forall k :: 0 <= k < i ==> !Stops(frames[k])
  {
    if |frames| == 0 then 0
    else if Stops(frames[0]) then 0
    else
      var j := FirstStop(frames[1..]);
      assert forall k :: 1 <= k < 1 + j ==> frames[k] == frames[1..][k - 1];
      1 + j
  }

  /** How the loop ends on these frames, if it ends within them. */
  function ScanOutcome(frames: seq<Frame>): Option<ScanEnd>
  {
    var i := FirstStop(frames);
    if i < |frames| then Some(FrameStep(frames[i]).end) else None
  }

  /** The payload the loop hands to the parser, if any. */
  function DetectedPayload(o: Option<ScanEnd>): Option<string>
  {
    if o.Some? && o.value.Detected? then Some(o.value.payload) else None
  }

  /** The `while True` loop of `ler_qr_camera`. `stopAt` is the index of the
      frame that ended it, `|frames|` when the frames ran out first. */
  method ScanLoop(frames: seq<Frame>) returns (encontrado: bool, dados: Option<string>, stopAt: nat)
    ensures stopAt <= |frames|
    ensures forall k :: 0 <= k < stopAt ==>
      frames[k].readOk && !HasText(DecodedText(frames[k].codes)) && !IsQuitKey(frames[k].key)
    ensures stopAt < |frames| ==> Stops(frames[stopAt])
    ensures encontrado <==> dados.Some?
    ensures encontrado ==>
      (stopAt < |frames| && frames[stopAt].readOk &&
       DecodedText(frames[stopAt].codes) == dados && |dados.value| > 0)
    ensures stopAt == FirstStop(frames)
    ensures dados == DetectedPayload(ScanOutcome(frames))
  {
    encontrado := false;
    dados := None;
    stopAt := 0;
    while true
      invariant stopAt <= |frames|
      invariant forall k :: 0 <= k < stopAt ==> !Stops(frames[k])
      invariant !encontrado && dados == None
      decreases |frames| - stopAt
    {
      if stopAt == |frames| {
        break;
      }
      var frame := frames[stopAt];
      if !frame.readOk {
        break;
      }
      var texto := DecodedText(frame.codes);
      if HasText(texto) {
        dados := texto;
        encontrado := true;
        break;
      }
      if IsQuitKey(frame.key) {
        break;
      }
      stopAt := stopAt + 1;
    }
    FirstStopAt(frames, stopAt);
  }

  /** The first stopping frame, wherever it is, decides the outcome. */
  lemma FirstStopAt(frames: seq<Frame>, i: nat)
    requires i <= |frames|
    requires i < |frames| ==> Stops(frames[i])
    requires forall k :: 0 <= k < i ==> !Stops(frames[k])
    ensures FirstStop(frames) == i
    ensures ScanOutcome(frames) == if i < |frames| then Some(FrameStep(frames[i]).end) else None
  {
  }

  /** Frames after the one that stops the loop are never looked at. */
  lemma {:induction false} LaterFramesIgnored(frames: seq<Frame>, more: seq<Frame>)
    requires FirstStop(frames) < |frames|
    ensures FirstStop(frames + more) == FirstStop(frames)
    ensures ScanOutcome(frames + more) == ScanOutcome(frames)
  {
    var i := FirstStop(frames);
    var all := frames + more;
    assert forall k :: 0 <= k <= i ==> all[k] == frames[k];
    FirstStopAt(all, i);
  }

  /** A readable frame with text stops the loop with that text as payload,
      whatever key was pressed with it. */
  lemma TextBeforeQuitKey(frames: seq<Frame>, i: nat)
    requires i < |frames| && forall k :: 0 <= k < i ==> !Stops(frames[k])
    requires frames[i].readOk && |frames[i].codes| > 0 && |frames[i].codes[0]| > 0
    ensures ScanOutcome(frames) == Some(Detected(frames[i].codes[0]))
  {
    FirstStopAt(frames, i);
  }

  /** A failed read stops the loop whatever the frame would have decoded. */
  lemma ReadFailureFirst(frames: seq<Frame>, i: nat)
    requires i < |frames| && forall k :: 0 <= k < i ==> !Stops(frames[k])
    requires !frames[i].readOk
    ensures ScanOutcome(frames) == Some(ReadFailed)
  {
    FirstStopAt(frames, i);
  }

  /** Only the first decoded symbol of a frame counts: the symbols after
      it never change what the frame does to the loop. */
  lemma OnlyFirstCodeCounts(readOk: bool, first: string, rest1: seq<string>, rest2: seq<string>, key: int)
    ensures FrameStep(Frame(readOk, [first] + rest1, key)) == FrameStep(Frame(readOk, [first] + rest2, key))
  {
    assert ([first] + rest1)[0] == first == ([first] + rest2)[0];
  }

  /** A readable frame in which nothing was decoded stops the loop only on
      the quit key. */
  lemma NoCodeNoStopWithoutQuit(readOk: bool, key: int)
    requires readOk
    ensures FrameStep(Frame(readOk, [], key)) == if IsQuitKey(key) then Stop(QuitPressed) else Continue
  {
  }

  /** A QR code whose text is empty does not stop the loop: without the quit
      key the loop reads on. */
  lemma EmptyTextIgnored(f: Frame)
    requires f.readOk && |f.codes| > 0 && f.codes[0] == ""
    ensures Stops(f) <==> IsQuitKey(f.key)
  {
  }

  /** The session: scan, then warn when nothing was detected, else parse
      and name the files of the printed label. */
  function Session(frames: seq<Frame>, stamp: string): Outcome
  {
    var scan := ScanOutcome(frames);
    if scan.None? then Scanning
    else if !scan.value.Detected? then NoQrDetected
    else
      var parsed := ParseLabel(scan.value.payload);
      if parsed.Failure? then ParseError(parsed.error)
      else
        var l := parsed.value;
        LabelIssued(l, PdfPath(l.nome, stamp), BarcodePath(l.ordemColeta))
  }

  /** `ler_qr_camera`: the scan loop, the "nothing detected" check, and the
      parser with its two field loops, followed by the file names of
      `gerar_etiqueta`. */
  method ReadQrCamera(frames: seq<Frame>, stamp: string) returns (o: Outcome)
    ensures o == Session(frames, stamp)
  {
    var encontrado, dados, stopAt := ScanLoop(frames);
    if stopAt == |frames| {
      return Scanning;
    }
    if !encontrado || !HasText(dados) {
      return NoQrDetected;
    }
    var linhas := Lines(dados.value);
    var nome := NameOf(linhas);
    var endereco := AddressOf(linhas);
    var cep := ExtractCep(linhas);
    var ordem := ExtractOrder(linhas);
    if ordem.None? {
      return ParseError(MissingOrder);
    }
    var etiqueta := Label(nome, endereco, cep, ordem.value);
    o := LabelIssued(etiqueta, PdfPath(nome, stamp), BarcodePath(ordem.value));
  }

  /** The dialog shown at the end of a session, if it has ended. */
  function NoticeOf(o: Outcome): Option<Notice>
  {
    match o
    case Scanning => None
    case NoQrDetected => Some(Warning("Aviso", NoQrText))
    case ParseError(reason) => Some(Error("Erro", "Erro ao processar dados:\n" + reason))
    case LabelIssued(l, _, _) => Some(Info("Sucesso", "Etiqueta gerada para " + l.nome))
  }

  /** An issued label is announced as "Sucesso" with the recipient's name. */
  lemma SuccessNotice(o: Outcome)
    requires o.LabelIssued?
    ensures NoticeOf(o) == Some(Info("Sucesso", "Etiqueta gerada para " + o.issued.nome))
  {
  }

  /** A label is issued only for the payload of the first stopping frame,
      which read fine and carried non-empty text; the label is that
      payload's parse, its order is nine digits starting with '4', its
      files are named after the name, stamp and order, and the user is
      told "Sucesso" with the recipient's name. */
  lemma IssuedLabel(frames: seq<Frame>, stamp: string)
    requires Session(frames, stamp).LabelIssued?
    ensures var i := FirstStop(frames);
      && i < |frames| && frames[i].readOk && |frames[i].codes| > 0
      && |frames[i].codes[0]| > 0
      && var l := Session(frames, stamp).issued;
      && ParseLabel(frames[i].codes[0]) == Success(l)
      && |l.ordemColeta| == 9 && l.ordemColeta[0] == '4'
      && Session(frames, stamp).pdfPath == PdfPath(l.nome, stamp)
      && Session(frames, stamp).barcodePath == BarcodePath(l.ordemColeta)
      && NoticeOf(Session(frames, stamp)) == Some(Info("Sucesso", "Etiqueta gerada para " + l.nome))
  {
    var i := FirstStop(frames);
    var payload := frames[i].codes[0];
    assert ScanOutcome(frames) == Some(Detected(payload));
    ParsedOrderIsFirstOrderLine(payload);
    SuccessNotice(Session(frames, stamp));
  }

  /** The "nothing detected" warning comes exactly when the loop ended on a
      failed read or on the quit key. */
  lemma NoQrWarning(frames: seq<Frame>, stamp: string)
    ensures NoticeOf(Session(frames, stamp)) == Some(Warning("Aviso", NoQrText)) <==>
      ScanOutcome(frames) == Some(ReadFailed) || ScanOutcome(frames) == Some(QuitPressed)
  {
    var scan := ScanOutcome(frames);
    var s := Session(frames, stamp);
    if scan.Some? && scan.value.Detected? {
      assert s.ParseError? || s.LabelIssued?;
    }
  }

  /** A parse error always reports the missing collection order, and it
      comes exactly when a QR code was detected whose lines, stripped, hold
      no order number. */
  lemma ParseErrorMeansNoOrder(frames: seq<Frame>, stamp: string)
    ensures Session(frames, stamp).ParseError? <==>
      var p := DetectedPayload(ScanOutcome(frames));
      p.Some? && forall j :: 0 <= j < |Lines(p.value)| ==> !IsOrderNumber(Strip(Lines(p.value)[j]))
    ensures Session(frames, stamp).ParseError? ==>
      NoticeOf(Session(frames, stamp)) == Some(Error("Erro", "Erro ao processar dados:\n" + MissingOrder))
  {
    var p := DetectedPayload(ScanOutcome(frames));
    if p.Some? {
      ParseFailsWithoutOrder(p.value);
    }
  }

  /** The session has not ended exactly when no frame stops the loop. */
  lemma StillScanning(frames: seq<Frame>, stamp: string)
    ensures Session(frames, stamp) == Scanning <==> forall k :: 0 <= k < |frames| ==> !Stops(frames[k])
  {
    if FirstStop(frames) < |frames| {
      assert Stops(frames[FirstStop(frames)]);
    }
  }
}
