/** The pure parts of the loaders: which loader a file name is handed to,
    and the text the PDF loader joins a document's pages into. */
module Loading {
  import opened Text

  /** The files `loadDocuments` asks for, in the order it lists them. */
  const DocumentFiles: seq<string> := [
    "Bid Director.txt",
    "Code Advisors.txt",
    "Team Lead Generic (5).txt",
    "Advisors Generic(4).txt",
    "Sponsor.txt",
    "Consortium Members.txt",
    "OnM-Bid-Manual.pdf"
  ]

  // ---------------------------------------------------------------------
  // Extension dispatch in `loadDocument`

  datatype Loader = PdfLoader | TextLoader | Unsupported

  /** `filename.split('.').pop().toLowerCase()`: the lower-cased text after
      the last dot, or the whole lower-cased name when it has no dot. */
  function Extension(filename: string): (ext: string)
    ensures '.' !in ext
    ensures forall i :: 0 <= i < |ext| ==> !('A' <= ext[i] <= 'Z')
  {
    var parts := SplitOn(filename, ".");
    NoDot(parts[|parts| - 1]);
    Lower(parts[|parts| - 1])
  }

  /** A piece of a split on `.` holds no dot. */
  lemma {:induction false} NoDot(piece: string)
    requires IndexOf(piece, ".") == None
    ensures '.' !in Lower(piece)
  {
    forall k | 0 <= k < |piece| ensures Lower(piece)[k] != '.' {
      assert !OccursAt(piece, ".", k);
      assert piece[k..k + 1] == [piece[k]];
    }
  }

  /** The loader `loadDocument` hands the file to. */
  function LoaderFor(filename: string): Loader {
    var extension := Extension(filename);
    if extension == "pdf" then PdfLoader
    else if extension == "txt" then TextLoader
    else Unsupported
  }

  /** The extension is what follows the last dot, lower-cased: the loader
      is chosen by it alone, whatever the rest of the name holds and
      whatever the case of its letters. */
  lemma {:induction false} ExtensionAfterLastDot(base: string, ext: string)
    requires '.' !in ext
    ensures Extension(base + "." + ext) == Lower(ext)
    ensures LoaderFor(base + "." + ext) == PdfLoader <==> Lower(ext) == "pdf"
    ensures LoaderFor(base + "." + ext) == TextLoader <==> Lower(ext) == "txt"
  {
    assert base + "." + ext == base + ['.'] + ext;
    LastPieceAfterSeparator(base, '.', ext);
  }

  /** A name without a dot is its own extension: a file named `PDF` goes
      to the PDF loader. */
  lemma {:induction false} ExtensionWithoutDot(filename: string)
    requires '.' !in filename
    ensures Extension(filename) == Lower(filename)
  {
    IndexOfFree(filename, '.');
  }

  /** A name ending in `.txt` goes to the text loader. */
  lemma {:induction false} TxtName(base: string)
    ensures LoaderFor(base + ".txt") == TextLoader
  {
    assert base + ".txt" == base + "." + "txt";
    assert Lower("txt") == "txt";
    ExtensionAfterLastDot(base, "txt");
  }

  /** The six `.txt` files go to the text loader and the manual to the PDF
      loader. */
  lemma {:induction false} ConfiguredLoaders()
    ensures forall k :: 0 <= k < 6 ==> LoaderFor(DocumentFiles[k]) == TextLoader
    ensures LoaderFor(DocumentFiles[6]) == PdfLoader
  {
    forall k | 0 <= k < 6 ensures LoaderFor(DocumentFiles[k]) == TextLoader {
      var name := DocumentFiles[k];
      var base := name[..|name| - 4];
      assert name == base + ".txt";
      TxtName(base);
    }
    assert DocumentFiles[6] == "OnM-Bid-Manual" + "." + "pdf";
    assert Lower("pdf") == "pdf";
    ExtensionAfterLastDot("OnM-Bid-Manual", "pdf");
  }

  // ---------------------------------------------------------------------
  // Page joining in `loadPDF`

  /** `textContent.items.map(item => item.str).join(' ')`: the text of one
      page from the strings of its text items. */
  function PageText(items: seq<string>): string {
    Join(items, " ")
  }

  /** What the loop appends for page `n` (counted from 1). */
  function PageBlock(n: nat, text: string): string {
    "\n\n--- Page " + NatToString(n) + " ---\n\n" + text
  }

  /** `fullText` once the pages `pages` (each the strings of its text
      items) are processed. */
  function PagesText(pages: seq<seq<string>>): (text: string)
    ensures AllSpace(text) <==> pages == []
  {
    if pages == [] then ""
    else
      var prefix := PagesText(pages[..|pages| - 1]);
      var text := prefix + PageBlock(|pages|, PageText(pages[|pages| - 1]));
      assert text[|prefix| + 2] == '-';
      text
  }

  /** Whatever the pages hold, even nothing at all, the joined text is
      blank exactly when there is no page: the `trim()` check keeps every
      PDF with at least one page. */
  lemma {:induction false} PagesTextBlank(pages: seq<seq<string>>)
    ensures AllSpace(PagesText(pages)) <==> pages == []
    ensures Trim(PagesText(pages)) == [] <==> pages == []
  {
  }

  /** Joining more pages only extends the text. */
  lemma {:induction false} PagesTextPrefix(pages: seq<seq<string>>, n: nat)
    requires n <= |pages|
    ensures |PagesText(pages[..n])| <= |PagesText(pages)|
    ensures PagesText(pages)[..|PagesText(pages[..n])|] == PagesText(pages[..n])
    decreases |pages| - n
  {
    if n < |pages| {
      var init := pages[..|pages| - 1];
      assert init[..n] == pages[..n];
      PagesTextPrefix(init, n);
      assert PagesText(pages) == PagesText(init) + PageBlock(|pages|, PageText(pages[|pages| - 1]));
    } else {
      assert pages[..n] == pages;
    }
  }

  /** Page `n` sits in the joined text under its own number, after the
      pages before it: the pages come in order, numbered from 1. */
  lemma {:induction false} PageInPlace(pages: seq<seq<string>>, n: nat)
    requires 1 <= n <= |pages|
    ensures var before := |PagesText(pages[..n - 1])|;
            var block := PageBlock(n, PageText(pages[n - 1]));
            before + |block| <= |PagesText(pages)| &&
            PagesText(pages)[before..before + |block|] == block
  {
    var upto := pages[..n];
    var before := PagesText(pages[..n - 1]);
    var block := PageBlock(n, PageText(pages[n - 1]));
    assert upto[..n - 1] == pages[..n - 1];
    assert PagesText(upto) == before + block;
    PagesTextPrefix(pages, n);
    assert PagesText(pages)[|before|..|before| + |block|] == PagesText(upto)[|before|..];
  }
}
