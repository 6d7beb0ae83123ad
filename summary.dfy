/** `getLoadedDocumentsSummary`: how many documents of each kind are
    loaded, then one line per document. */
module DocumentSummary {
  import opened Text
  import opened Indexing

  const NoDocuments := "No documents loaded. Using character knowledge only."

  /** `documents.filter(d => d.type === 'text').length`. */
  function TextCount(docs: seq<Doc>): nat {
    if docs == [] then 0
    else TextCount(docs[..|docs| - 1]) + (if docs[|docs| - 1].kind.TextDoc? then 1 else 0)
  }

  /** `documents.filter(d => d.type === 'pdf').length`. */
  function PdfCount(docs: seq<Doc>): nat {
    if docs == [] then 0
    else PdfCount(docs[..|docs| - 1]) + (if docs[|docs| - 1].kind.PdfDoc? then 1 else 0)
  }

  /** The pages of the PDF documents, added up. */
  function TotalPages(docs: seq<Doc>): nat {
    if docs == [] then 0
    else
      var last := docs[|docs| - 1];
      TotalPages(docs[..|docs| - 1]) + (if last.kind.PdfDoc? then last.kind.pages else 0)
  }

  /** Every document is counted once, as a text file or as a PDF, and
      without PDFs there are no pages. */
  lemma {:induction false} CountsPartition(docs: seq<Doc>)
    ensures TextCount(docs) + PdfCount(docs) == |docs|
    ensures PdfCount(docs) == 0 ==> TotalPages(docs) == 0
    decreases |docs|
  {
    if docs != [] {
      CountsPartition(docs[..|docs| - 1]);
    }
  }

  /** The listing line of one document. */
  function DocLine(doc: Doc): string {
    match doc.kind
    case PdfDoc(pages) => "  • " + doc.filename + " (" + NatToString(pages) + " pages)"
    case TextDoc => "  • " + doc.filename
  }

  function DocLines(docs: seq<Doc>): (lines: seq<string>)
    ensures |lines| == |docs|
    ensures forall i :: 0 <= i < |docs| ==> lines[i] == DocLine(docs[i])
  {
    seq(|docs|, i requires 0 <= i < |docs| => DocLine(docs[i]))
  }

  /** The first line: how many documents are loaded. */
  function LoadedLine(n: nat): string {
    "📚 " + NatToString(n) + " documents loaded:"
  }

  function TextFilesLine(textFiles: nat): string {
    "  • " + NatToString(textFiles) + " text file(s)"
  }

  function PdfFilesLine(pdfFiles: nat, totalPages: nat): string {
    "  • " + NatToString(pdfFiles) + " PDF file(s) (" + NatToString(totalPages) + " pages)"
  }

  /** The count lines: the total, then the text files and the PDFs, each
      only when there is one. */
  function CountLines(docs: seq<Doc>): seq<string> {
    [LoadedLine(|docs|)]
    + (if TextCount(docs) > 0 then [TextFilesLine(TextCount(docs))] else [])
    + (if PdfCount(docs) > 0 then [PdfFilesLine(PdfCount(docs), TotalPages(docs))] else [])
  }

  /** The lines of the summary: the counts, a blank line, a title, then
      one line per document in load order. */
  function SummaryLines(docs: seq<Doc>): seq<string> {
    CountLines(docs) + ["", "Documents:"] + DocLines(docs)
  }

  /** The summary: a fixed message when nothing is loaded, otherwise its
      lines joined with newlines. */
  function Summary(docs: seq<Doc>): string {
    if docs == [] then NoDocuments else Join(SummaryLines(docs), "\n")
  }

  /** The count lines, each followed by a newline, appended one at a time. */
  function CountText(docs: seq<Doc>): string {
    var total := LoadedLine(|docs|) + "\n";
    var withText := if TextCount(docs) > 0 then total + TextFilesLine(TextCount(docs)) + "\n" else total;
    if PdfCount(docs) > 0 then withText + PdfFilesLine(PdfCount(docs), TotalPages(docs)) + "\n" else withText
  }

  /** One more line, then a newline. */
  lemma {:induction false} JoinLineEnded(lines: seq<string>, line: string)
    requires |lines| >= 1
    ensures Join(lines + [line], "\n") + "\n" == Join(lines, "\n") + "\n" + line + "\n"
  {
    JoinAppend(lines, [line], "\n");
    assert Join([line], "\n") == line;
    var a := Join(lines, "\n");
    assert a + "\n" + line + "\n" == (a + "\n" + line) + "\n";
  }

  /** Up to three lines, joined with newlines and ended by one, are the
      lines each followed by a newline. */
  lemma {:induction false} JoinLinesEnded(first: string, ts: seq<string>, ps: seq<string>)
    requires |ts| <= 1 && |ps| <= 1
    ensures var total := first + "\n";
            var withText := if ts == [] then total else total + ts[0] + "\n";
            Join([first] + ts + ps, "\n") + "\n" == if ps == [] then withText else withText + ps[0] + "\n"
  {
    var a := [first] + ts;
    assert Join([first], "\n") == first;
    if ts != [] {
      assert ts == [ts[0]];
      JoinLineEnded([first], ts[0]);
    } else {
      assert a == [first];
    }
    if ps != [] {
      assert ps == [ps[0]];
      JoinLineEnded(a, ps[0]);
    } else {
      assert a + ps == a;
    }
  }

  /** The count lines, each followed by a newline, are the text the
      summary starts with. */
  lemma {:induction false} CountLinesText(docs: seq<Doc>)
    ensures Join(CountLines(docs), "\n") + "\n" == CountText(docs)
  {
    var first := LoadedLine(|docs|);
    var ts := if TextCount(docs) > 0 then [TextFilesLine(TextCount(docs))] else [];
    var ps := if PdfCount(docs) > 0 then [PdfFilesLine(PdfCount(docs), TotalPages(docs))] else [];
    assert CountLines(docs) == [first] + ts + ps;
    JoinLinesEnded(first, ts, ps);
  }

  lemma {:induction false} SummaryJoin(docs: seq<Doc>)
    requires docs != []
    ensures Summary(docs) == Join(CountLines(docs), "\n") + "\n" + "\nDocuments:\n" + Join(DocLines(docs), "\n")
  {
    var counts := Join(CountLines(docs), "\n");
    var listing := Join(DocLines(docs), "\n");
    var middle := ["", "Documents:"];
    JoinAppend(CountLines(docs), middle + DocLines(docs), "\n");
    assert CountLines(docs) + (middle + DocLines(docs)) == SummaryLines(docs);
    JoinAppend(middle, DocLines(docs), "\n");
    assert middle[1..] == ["Documents:"];
    assert Join(middle, "\n") + "\n" == "\nDocuments:\n";
    AppendAssoc(counts + "\n", Join(middle, "\n") + "\n", listing);
  }

  /** With at least one document, the summary is the count lines, then
      `"\nDocuments:\n"`, then the listing. */
  lemma {:induction false} SummaryText(docs: seq<Doc>)
    requires docs != []
    ensures Summary(docs) == CountText(docs) + "\nDocuments:\n" + Join(DocLines(docs), "\n")
  {
    SummaryJoin(docs);
    CountLinesText(docs);
  }

  lemma {:induction false} NoNewlineInDigits(s: string)
    requires AllDigits(s)
    ensures '\n' !in s
  {
    assert forall i :: 0 <= i < |s| ==> s[i] != '\n';
  }

  lemma {:induction false} DocLineOneLine(doc: Doc)
    requires '\n' !in doc.filename
    ensures '\n' !in DocLine(doc)
  {
    if doc.kind.PdfDoc? {
      NoNewlineInDigits(NatToString(doc.kind.pages));
    }
  }

  lemma {:induction false} LoadedLineOneLine(n: nat)
    ensures '\n' !in LoadedLine(n)
  {
    NoNewlineInDigits(NatToString(n));
  }

  lemma {:induction false} TextFilesLineOneLine(n: nat)
    ensures '\n' !in TextFilesLine(n)
  {
    NoNewlineInDigits(NatToString(n));
  }

  lemma {:induction false} PdfFilesLineOneLine(n: nat, pages: nat)
    ensures '\n' !in PdfFilesLine(n, pages)
  {
    NoNewlineInDigits(NatToString(n));
    NoNewlineInDigits(NatToString(pages));
  }

  lemma {:induction false} CountLinesOneLine(docs: seq<Doc>)
    ensures forall k :: 0 <= k < |CountLines(docs)| ==> '\n' !in CountLines(docs)[k]
  {
    LoadedLineOneLine(|docs|);
    TextFilesLineOneLine(TextCount(docs));
    PdfFilesLineOneLine(PdfCount(docs), TotalPages(docs));
  }

  /** The summary splits on newlines back into its lines, when no file
      name holds a newline: one line per count, then one per document. */
  lemma {:induction false} SummarySplitsIntoLines(docs: seq<Doc>)
    requires docs != []
    requires forall i :: 0 <= i < |docs| ==> '\n' !in docs[i].filename
    ensures SplitOn(Summary(docs), "\n") == SummaryLines(docs)
    ensures |SplitOn(Summary(docs), "\n")| == |CountLines(docs)| + 2 + |docs|
  {
    var counts := CountLines(docs);
    var listing := DocLines(docs);
    var lines := counts + ["", "Documents:"] + listing;
    CountLinesOneLine(docs);
    forall k | 0 <= k < |lines| ensures '\n' !in lines[k] {
      if k >= |counts| + 2 {
        var i := k - |counts| - 2;
        assert lines[k] == listing[i];
        DocLineOneLine(docs[i]);
      } else if k < |counts| {
        assert lines[k] == counts[k];
      }
    }
    SplitOnJoin(lines, '\n');
  }
}
