/** The file names `gerar_etiqueta` writes: the label PDF, named after the
    recipient and the time of issue, and the barcode image, named after the
    collection order. The time of issue is the already formatted
    `%Y-%m-%d_%H-%M-%S` text, passed in instead of read from the clock. */
module LabelPaths {
  import opened PyStr
  import opened LabelParser

  const OutputDir: string := "etiquetas/"

  /** The recipient's name as it appears in the PDF filename: every space
      becomes '_', every other character is kept in place. */
  function FileSafeName(nome: string): (r: string)
    ensures |r| == |nome| && ' ' !in r
    ensures forall k :: 0 <= k < |nome| && nome[k] == ' ' ==> r[k] == '_'
    ensures forall k :: 0 <= k < |nome| && nome[k] != ' ' ==> r[k] == nome[k]
  {
    ReplaceCharRemoves(nome, ' ', '_');
    ReplaceChar(nome, ' ', '_')
  }

  /** The PDF file name: the output directory, the file-safe name, an
      underscore, the time of issue and the ".pdf" extension. */
  function PdfPath(nome: string, stamp: string): string
  {
    OutputDir + FileSafeName(nome) + "_" + stamp + ".pdf"
  }

  /** The barcode image name: the output directory, "barcode_", the
      collection order and the ".png" extension. */
  function BarcodePath(ordem: string): string
  {
    OutputDir + "barcode_" + ordem + ".png"
  }

  /** The PDF path starts with the output directory, ends in ".pdf", carries the
      stamp just before that, and its name part has no space. */
  lemma PdfPathShape(nome: string, stamp: string)
    ensures var p := PdfPath(nome, stamp);
      && |p| == |OutputDir| + |nome| + |stamp| + 5
      && p[..|OutputDir|] == OutputDir
      && ' ' !in p[|OutputDir|..|OutputDir| + |nome|]
      && p[|OutputDir| + |nome|] == '_'
      && p[|p| - |stamp| - 4..|p| - 4] == stamp
      && p[|p| - 4..] == ".pdf"
  {
    var p := PdfPath(nome, stamp);
    var safe := FileSafeName(nome);
    assert p == OutputDir + safe + "_" + stamp + ".pdf";
    assert p[|OutputDir|..|OutputDir| + |nome|] == safe;
    assert p[|p| - |stamp| - 4..|p| - 4] == stamp;
    assert p[|p| - 4..] == ".pdf";
  }

  /** Two stamps of the same length that differ give different PDF paths,
      whatever the names. */
  lemma DistinctStampsDistinctPdfs(nome1: string, nome2: string, stamp1: string, stamp2: string)
    requires |stamp1| == |stamp2| && stamp1 != stamp2
    ensures PdfPath(nome1, stamp1) != PdfPath(nome2, stamp2)
  {
    PdfPathShape(nome1, stamp1);
    PdfPathShape(nome2, stamp2);
  }

  /** Names that differ only by ' ' against '_' get the same PDF path at
      the same stamp, so the later label overwrites the earlier file. */
  lemma SpaceAndUnderscoreCollide(nome1: string, nome2: string, stamp: string)
    requires |nome1| == |nome2|
    requires forall k :: 0 <= k < |nome1| ==>
      nome1[k] == nome2[k] || (nome1[k] in " _" && nome2[k] in " _")
    ensures PdfPath(nome1, stamp) == PdfPath(nome2, stamp)
  {
    var safe1, safe2 := FileSafeName(nome1), FileSafeName(nome2);
    forall k | 0 <= k < |nome1| ensures safe1[k] == safe2[k] {
      assert safe1[k] == ReplaceChar(nome1, ' ', '_')[k];
      assert safe2[k] == ReplaceChar(nome2, ' ', '_')[k];
    }
    assert safe1 == safe2;
  }

  /** The barcode path determines the order: equal paths exactly for equal
      orders. */
  lemma BarcodePathInjective(ordem1: string, ordem2: string)
    ensures BarcodePath(ordem1) == BarcodePath(ordem2) <==> ordem1 == ordem2
  {
    var prefix := OutputDir + "barcode_";
    var p1, p2 := BarcodePath(ordem1), BarcodePath(ordem2);
    if p1 == p2 {
      assert p1 == prefix + ordem1 + ".png";
      assert p2 == prefix + ordem2 + ".png";
      assert |ordem1| == |ordem2|;
      assert p1[|prefix|..|prefix| + |ordem1|] == ordem1;
      assert p2[|prefix|..|prefix| + |ordem2|] == ordem2;
    }
  }

  /** Scanning the same collection order twice, at two different times,
      writes two PDF files but one barcode image, the second overwriting
      the first. */
  lemma RescanOverwritesBarcode(first: Label, second: Label, stamp1: string, stamp2: string)
    requires first.ordemColeta == second.ordemColeta
    requires |stamp1| == |stamp2| && stamp1 != stamp2
    ensures BarcodePath(first.ordemColeta) == BarcodePath(second.ordemColeta)
    ensures PdfPath(first.nome, stamp1) != PdfPath(second.nome, stamp2)
  {
    DistinctStampsDistinctPdfs(first.nome, second.nome, stamp1, stamp2);
  }
}
