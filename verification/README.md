# Shopee QR label desk — verified model

The desk tool has one button, "Ler QR Code". Pressing it runs one session.
The session reads camera frames until a QR code is decoded, the operator
presses `q`, or the camera stops delivering frames. The text of the decoded
code is a multi-line delivery payload. The tool parses it into a label
record: recipient name (`nome`), street address (`endereco`), postal code
(`cep`) and collection order (`ordem_coleta`). It then writes a barcode
image named after the order and a PDF label named after the recipient and
the time of issue, and reports the outcome in a dialog box.

This project models that decision logic in Dafny and proves its rules:

- `PyStr.dfy`: the Python `str` operations the parser uses (`split`,
  `strip`, `upper`, `in`, `isdigit`, `startswith`, one-character
  `replace`), on ASCII. `Find` (the scan behind `split`) and `Join` (the
  inverse of `split`) are helpers for stating and proving their
  properties; the program calls neither.
- `LabelParser.dfy`: the parser of `ler_qr_camera`. It has one function per
  field, plus methods with the program's two `for` loops (postal code and
  collection order), each proved equal to its function.
- `LabelPaths.dfy`: the two file names built by `gerar_etiqueta`. The time
  of issue is a parameter: the already formatted `%Y-%m-%d_%H-%M-%S` text.
- `ScanSession.dfy`: the `while True` frame loop and the whole session. The
  camera is a finite sequence of frame events. Each event holds whether the
  read succeeded, the texts the decoder found, and the key code of the
  preview window.
- `LabelExamples.dfy`: the parser on sample payload shapes. These are a
  full four-line label, an order not starting with `4`, a lower-case `cep:`
  marker and two competing `CEP` lines.
- `Wrappers.dfy`: `Option` and `Result`.

Behaviour of the code that is easy to misread:

- The postal-code loop has no `break`, so the LAST line that mentions "CEP"
  and has a colon sets the postal code, not the first.
- The postal code is the text between the first and the SECOND colon of
  that line, because the code takes `split(":")[1]`. It is not everything
  after the first colon.
- A "CEP" line without a colon leaves the postal code as it was, possibly
  set by an earlier line. It does not reset it to "00000-000".
- The "Destinatário" name placeholder is never used. Splitting on "\n"
  always gives at least one line, so an empty payload gives the name "".
- A failed camera read ends the loop with `encontrado` still false. The
  program then shows the same "Nenhum QR code detectado." warning as for
  `q`, so the session does not end silently.

## Model

| member | source | states |
|---|---|---|
| PyStr.IsSpace | app.py:94 | definition of the whitespace `strip` removes; its role is stated by `PyStr.Strip`, whose result neither starts nor ends with it and is surrounded only by it |
| PyStr.Find | app.py:100-102 | the index of the first occurrence of a character, or the length when it is absent; no earlier position holds it |
| PyStr.Split | app.py:93 | `split` always gives at least one piece, and no piece contains the separator |
| PyStr.JoinSplit | app.py:93 | joining the pieces of a split with the separator gives back the original text |
| PyStr.SplitJoin | app.py:93 | splitting a join of separator-free pieces gives back those pieces |
| PyStr.SplitHasSecondPiece | app.py:100-101 | a split has more than one piece exactly when the separator occurs |
| PyStr.SplitPieces | app.py:100-102 | piece 0 runs up to the first separator; piece 1 runs from the first separator to the second, or to the end |
| PyStr.Strip | app.py:94 | `strip` gives the infix after the leading whitespace, only whitespace follows it, and it neither starts nor ends with whitespace |
| PyStr.StripKeepsTrimmed | app.py:106 | text without whitespace at either end is unchanged by `strip` |
| PyStr.StripIdempotent | app.py:106 | stripping twice equals stripping once |
| PyStr.Upper | app.py:99 | `upper` keeps the length; each ASCII lower-case letter becomes its upper-case letter, every other character is kept in place |
| PyStr.Contains | app.py:95 | definition of the substring test `pat in s`; its meaning is stated by `PyStr.ContainsAt` and `PyStr.NotContainsWithoutHead` |
| PyStr.ContainsAt | app.py:95 | `pat in s` holds exactly when `pat` starts at some position of `s` |
| PyStr.NotContainsWithoutHead | app.py:95 | a pattern whose first character is absent from the text does not occur in it |
| PyStr.IsDigits | app.py:107 | definition of `isdigit` on the stripped line: non-empty and only '0'-'9'; its meaning for the order is stated by `LabelParser.OrderFound` and `LabelParser.ParsedOrderIsFirstOrderLine` |
| PyStr.StartsWith | app.py:107 | definition of `startswith` as a sequence prefix; its meaning for the order is stated by `LabelParser.OrderFound` and `LabelParser.ParsedOrderIsFirstOrderLine` |
| PyStr.ReplaceChar | app.py:29 | `replace` keeps the length, puts the replacement at each occurrence and keeps every other character |
| PyStr.ReplaceCharRemoves | app.py:29 | after replacing a character by a different one, it no longer occurs |
| LabelParser.NameOf | app.py:94 | definition of the name field; its meaning is stated by `LabelParser.NameIsFirstLine` |
| LabelParser.AddressOf | app.py:95 | definition of the address field; its meaning is stated by `LabelParser.AddressIsFirstStreetLine` and `LabelParser.AddressDefault` |
| LabelParser.MentionsStreet | app.py:95 | definition of the address test, "Rua" or "Av" anywhere in the raw line; its meaning is stated by `LabelParser.AddressIsFirstStreetLine` and `LabelParser.AddressDefault` |
| LabelParser.CepStep | app.py:99-102 | definition of one postal-code loop step; its meaning is stated by `LabelParser.CepStepCases` |
| LabelParser.MentionsCep | app.py:99 | definition of the marker test, "CEP" anywhere in the upper-cased line; its meaning is stated by `LabelExamples.StartsWithCepMarker`, `LabelExamples.NoCepMarker` and `LabelExamples.CepMarkerIgnoresCase` |
| LabelParser.IsCepLine | app.py:99-101 | definition of a line that sets the postal code: it mentions "CEP" and holds a colon; its meaning is stated by `LabelParser.CepStepCases`, `LabelParser.CepIsLastCepLine` and `LabelParser.CepDefault` |
| LabelParser.AfterFirstColon | app.py:100-102 | definition of the new postal code: the stripped text between the first colon and the next one, or the end; its meaning is stated by `LabelParser.CepStepCases`, `PyStr.SplitPieces` and `LabelExamples.FieldAfterColon` |
| LabelParser.CepOf | app.py:96-102 | definition of the postal code after the loop; its meaning is stated by `LabelParser.CepIsLastCepLine` and `LabelParser.CepDefault`, and `LabelParser.ExtractCep` is proved equal to it |
| LabelParser.OrderOf | app.py:104-109 | definition of the collection order; its meaning is stated by `LabelParser.OrderIsFirstOrderLine`, `LabelParser.OrderMissing` and `LabelParser.OrderFound`, and `LabelParser.ExtractOrder` is proved equal to it |
| LabelParser.IsOrderNumber | app.py:107 | definition of the order test on the stripped line: digits only, first digit '4', length 9; its meaning is stated by `LabelParser.OrderFound`, `LabelParser.OrderIsFirstOrderLine` and `LabelParser.ParsedOrderIsFirstOrderLine` |
| LabelParser.Lines | app.py:93 | the payload's lines are at least one, and joined with "\n" they give back the payload |
| LabelParser.NameIsFirstLine | app.py:93-94 | the name is always the stripped text before the first line break; the placeholder branch is never taken |
| LabelParser.ParsedNameIsFirstLine | app.py:94 | a parsed label's name is the stripped text before the payload's first line break |
| LabelParser.AddressIsFirstStreetLine | app.py:95 | the address is the stripped form of the first line containing "Rua" or "Av", case-sensitively |
| LabelParser.AddressDefault | app.py:95 | with no such line the address is "Endereço não encontrado" |
| LabelParser.ExtractCep | app.py:96-102 | the postal-code loop, with no break, ends with the postal code of the whole line list |
| LabelParser.CepStepCases | app.py:99-102 | one loop step leaves the postal code alone on a line that is not a CEP line, and on a CEP line takes the stripped text between its first and second colon |
| LabelParser.CepOfLastLine | app.py:98-102 | a final CEP line sets the postal code, whatever came before |
| LabelParser.CepOfOtherLine | app.py:98-102 | a final line that is not a CEP line leaves the postal code as the earlier lines set it |
| LabelParser.CepIsLastCepLine | app.py:98-102 | the postal code is the stripped text between the first and second colon of the LAST line whose upper-cased form contains "CEP" and that has a colon |
| LabelParser.CepDefault | app.py:96-102 | with no such line the postal code is "00000-000" |
| LabelParser.ExtractOrder | app.py:104-109 | the collection-order loop, which breaks at the first match, ends with the order of the whole line list |
| LabelParser.OrderIsFirstOrderLine | app.py:105-109 | the order is the stripped form of the first line that, stripped, is nine digits starting with '4' |
| LabelParser.OrderMissing | app.py:104-111 | there is no order exactly when no line qualifies |
| LabelParser.OrderFound | app.py:105-108 | a found order is nine digits starting with '4', equals some line stripped, and no earlier line qualifies |
| LabelParser.ParseLabel | app.py:93-112 | the only parse failure is "Número da ordem de coleta não encontrado." |
| LabelParser.ParseFailsWithoutOrder | app.py:111-112 | parsing fails exactly when no stripped payload line is a collection order |
| LabelParser.ParsedOrderIsFirstOrderLine | app.py:105-109 | a parsed order has nine characters, all digits, the first a '4'; it is some payload line stripped, and no earlier line qualifies |
| LabelPaths.FileSafeName | app.py:29 | the name part of the PDF file name keeps the name's length, puts '_' where the name has a space, keeps every other character in place, and so has no space |
| LabelPaths.PdfPath | app.py:29 | definition of the PDF file name; its meaning is stated by `LabelPaths.PdfPathShape` and `LabelPaths.DistinctStampsDistinctPdfs` |
| LabelPaths.BarcodePath | app.py:32 | definition of the barcode file name; its meaning is stated by `LabelPaths.BarcodePathInjective` |
| LabelPaths.PdfPathShape | app.py:29 | the PDF path starts with "etiquetas/", its name part has no space, it is followed by '_', and it ends with the time of issue and ".pdf" |
| LabelPaths.DistinctStampsDistinctPdfs | app.py:28-29 | two different times of issue, formatted to the same length, give different PDF paths whatever the names |
| LabelPaths.SpaceAndUnderscoreCollide | app.py:29 | names that differ only by ' ' against '_' get the same PDF path for the same time of issue |
| LabelPaths.BarcodePathInjective | app.py:32 | two barcode paths are equal exactly when the orders are equal |
| LabelPaths.RescanOverwritesBarcode | app.py:28-34 | the same order scanned at two times writes one barcode path but two PDF paths |
| ScanSession.DecodedText | app.py:20-24 | definition: the text of the first decoded symbol, or nothing; its meaning for the loop is stated by `ScanSession.OnlyFirstCodeCounts` and `ScanSession.NoCodeNoStopWithoutQuit` |
| ScanSession.OnlyFirstCodeCounts | app.py:20-24 | only the first decoded symbol of a frame counts: the symbols after it never change what the frame does to the loop |
| ScanSession.NoCodeNoStopWithoutQuit | app.py:70-79 | a readable frame with nothing decoded stops the loop only on the quit key, and then as a quit |
| ScanSession.HasText | app.py:73 | definition of a truthy `texto`: a decoded text that is not empty; its meaning is stated by `ScanSession.TextBeforeQuitKey` and `ScanSession.EmptyTextIgnored` |
| ScanSession.IsQuitKey | app.py:78 | definition of the quit test: the key code's low byte is the code of 'q'; used by `ScanSession.NoCodeNoStopWithoutQuit` and `ScanSession.EmptyTextIgnored` |
| ScanSession.FrameStep | app.py:66-79 | definition of one loop iteration; its order of tests is stated by `ScanSession.ReadFailureFirst`, `ScanSession.TextBeforeQuitKey` and `ScanSession.EmptyTextIgnored` |
| ScanSession.FirstStop | app.py:65-79 | the index of the first frame that stops the loop, or the number of frames; every earlier frame continues |
| ScanSession.ScanOutcome | app.py:65-79 | definition of how the loop ends: the end of the first stopping frame, or none while every frame continues; its meaning is stated by `ScanSession.FirstStopAt` and `ScanSession.LaterFramesIgnored`, and `ScanSession.ScanLoop` is proved to follow it |
| ScanSession.ScanLoop | app.py:61-79 | the loop stops at the first stopping frame; every earlier frame read fine, had no text and no quit key; `encontrado` holds exactly when the stopping frame read fine and had non-empty text, which is then `dados_extraidos` |
| ScanSession.FirstStopAt | app.py:65-79 | a frame that stops the loop after only continuing frames is where the loop stops, and it decides the scan outcome |
| ScanSession.LaterFramesIgnored | app.py:65-79 | frames after the stopping frame change neither the stopping index nor the outcome |
| ScanSession.TextBeforeQuitKey | app.py:73-79 | a readable frame with non-empty text ends the scan with that text, whatever key was pressed |
| ScanSession.ReadFailureFirst | app.py:66-68 | a failed read ends the scan as a read failure, whatever the frame would have decoded |
| ScanSession.EmptyTextIgnored | app.py:73-79 | a QR code with empty text stops the loop only when the quit key is pressed |
| ScanSession.ReadQrCamera | app.py:60-114 | the session method (loop, "nothing detected" check, parser with its two loops, file names) computes the session outcome |
| ScanSession.Session | app.py:60-119 | definition of the session outcome; `ScanSession.ReadQrCamera` is proved equal to it, and its meaning is stated by `ScanSession.IssuedLabel`, `ScanSession.NoQrWarning`, `ScanSession.ParseErrorMeansNoOrder` and `ScanSession.StillScanning` |
| ScanSession.NoticeOf | app.py:85-86 | definition of the closing dialog of each outcome (also app.py:116 and app.py:119); its meaning is stated by `ScanSession.NoQrWarning`, `ScanSession.ParseErrorMeansNoOrder`, `ScanSession.SuccessNotice` and `ScanSession.IssuedLabel` |
| ScanSession.SuccessNotice | app.py:116 | an issued label closes with the "Sucesso" dialog, "Etiqueta gerada para " followed by the recipient's name |
| ScanSession.IssuedLabel | app.py:73-116 | a label is issued only for the non-empty text of the first stopping frame; it is that text's parse, its order is nine characters starting with '4', and its files are named after its name, the time of issue and its order, and the closing dialog is "Sucesso" with "Etiqueta gerada para " and the name |
| ScanSession.NoQrWarning | app.py:84-86 | the "Nenhum QR code detectado." warning appears exactly when the scan ended on a failed read or on the quit key |
| ScanSession.ParseErrorMeansNoOrder | app.py:111-119 | a session ends in a parse error exactly when a QR text was detected and none of its stripped lines is an order; the error dialog then reports the missing order |
| ScanSession.StillScanning | app.py:65-79 | a session has not ended exactly when no frame so far stops the loop |
| LabelExamples.StartsWithCepMarker | app.py:99 | a line starting with "CEP" in any mix of cases mentions a postal code |
| LabelExamples.NoCepMarker | app.py:99 | a line without 'c' or 'C' does not mention a postal code |
| LabelExamples.FieldAfterColon | app.py:100-102 | in `marker: value`, with no other colon and a trimmed value, the field is the value |
| LabelExamples.CepMarkerIgnoresCase | app.py:99-102 | a line `cep: value`, with the marker in any case, sets the postal code to the value |
| LabelExamples.LowerCaseCepExample | app.py:99-102 | "cep: 12345-678" gives the postal code "12345-678" |
| LabelExamples.CepLineOf | app.py:99-102 | `CEP: value` is a CEP line whose field is the value |
| LabelExamples.LaterCepLineWins | app.py:98-102 | of two "CEP:" lines the second sets the postal code |
| LabelExamples.LinesOfFour | app.py:93 | four lines without line breaks, joined by "\n", split back into those four lines |
| LabelExamples.FourLineSplit | app.py:93 | a name, a street, a "CEP: " line and a line of digits, joined by "\n", split back into those four lines |
| LabelExamples.FourLineNameAndAddress | app.py:94-95 | on those four lines the name is the first line and the address the street line |
| LabelExamples.DigitsNotCepLine | app.py:99-101 | a line of digits has no colon and never sets the postal code |
| LabelExamples.FourLineCep | app.py:96-102 | on those four lines the postal code is the text after "CEP: " |
| LabelExamples.FourLineOrder | app.py:104-109 | on those four lines the order is the last line |
| LabelExamples.FourLineLabel | app.py:93-112 | a four-line payload (name, street, "CEP: " line, order) parses into exactly those fields |
| LabelExamples.CepLineIsNoOrder | app.py:106-107 | a "CEP:" line is never an order number, stripped or not |
| LabelExamples.ExampleNameShape | app.py:106-107 | "João Silva" has no line break, no surrounding whitespace, and is no order number |
| LabelExamples.ExampleNameIsNoStreet | app.py:95 | "João Silva" contains neither "Rua" nor "Av" |
| LabelExamples.ExampleStreetShape | app.py:106-107 | "Rua das Flores, 123" has no line break, no surrounding whitespace, and is no order number |
| LabelExamples.ExampleStreetMentionsStreet | app.py:95 | "Rua das Flores, 123" contains "Rua" |
| LabelExamples.ExampleLinesAreNoCepLines | app.py:99 | neither "João Silva" nor "Rua das Flores, 123" sets the postal code |
| LabelExamples.FullLabelExample | app.py:93-112 | "João Silva\nRua das Flores, 123\nCEP: 01000-000\n412345678" parses into those four fields |
| LabelExamples.OrderMustStartWithFour | app.py:105-112 | a name line followed by nine digits not starting with '4' fails with the missing-order error |
| LabelExamples.TwoLines | app.py:93 | a name line and a line of digits, joined by "\n", split back into those two lines |
| LabelExamples.WrongPrefixExample | app.py:105-112 | "Maria\n312345678" fails with the missing-order error |

## Left out

- Camera capture, the preview window and its closing (app.py:61, 71, 81-82) are not modelled. Frames are a finite sequence of events. The real loop blocks for the next frame; when the sequence runs out first, the model reports the session as still scanning.
- QR decoding with `pyzbar` and the UTF-8 decoding of its bytes (app.py:21-22) are not modelled. A frame event carries the decoded texts. A decoding error would raise outside the `try` and is not modelled.
- Barcode rendering with `Code128`, PDF layout with `FPDF` and printing with `os.startfile` (app.py:33-55) are library and operating-system calls. Only the file names are modelled. Their exceptions, which the `except` at app.py:118-119 reports, are not modelled.
- The CSV log (`registrar` and the table set-up, app.py:13-17, 115, 122-133) is a pandas file round-trip with no decision logic, so it is not modelled.
- A failure while writing the CSV log (reading or writing `registros.csv` in `registrar`, app.py:123 and app.py:133, for instance while another program holds the file) is not modelled. In the program it turns the "Sucesso" dialog into the "Erro" dialog of app.py:118-119, after the PDF and barcode were already written; `ScanSession.NoticeOf` gives every issued label the "Sucesso" dialog.
- `datetime.now()` (app.py:28, 47, 125) is not called. The formatted time of issue is a parameter.
- The Tkinter window (app.py:136-143) and the debug prints (app.py:89-91) are not modelled. The three dialog boxes are modelled only by their title and text (`ScanSession.NoticeOf`).
- `ScanSession.IsQuitKey` models `cv2.waitKey(1) & 0xFF` as the non-negative remainder modulo 256. The two agree on every integer, including the -1 returned when no key was pressed.
- `PyStr.IsSpace` is `str.strip`'s whitespace within ASCII: tab, line feed, vertical tab, form feed, carriage return, 0x1C-0x1F and space. Python also strips non-ASCII whitespace such as U+00A0 and U+2028; the model does not.
- `PyStr.IsDigits` accepts only ASCII '0'-'9'. Python's `isdigit` also accepts other Unicode digits, such as superscripts.
- `PyStr.Upper` upper-cases only ASCII letters. Python's `upper` also maps non-ASCII letters, some of them to several characters.
- LabelPaths.DistinctStampsDistinctPdfs: requires both times of issue to have the same length. `%Y-%m-%d_%H-%M-%S` always gives 19 characters for four-digit years. The formatting of a date and time is not modelled.
