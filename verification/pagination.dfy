/** The print layout of `PDFCreator.generate_pdf`: two sorted streams of image
    paths (QR codes and text cards) are cut into groups of twelve and laid out
    as pages of at most four rows of three images, a QR page and then the
    matching card page, whose rows are mirrored so that a printed sheet and
    its back line up.

    The reference functions (`Group`, `PageOf`, `Document`) describe the
    result; the methods `NextOf`, `DrawPage` and `GeneratePdf`
    follow the loops of the program, with its `StopIteration` handling, and
    are proved to compute exactly the reference result. */
module PdfPagination {
  import opened Wrappers

  /** Images drawn from a stream per page: the default `size` of `next_of`. */
  const GroupSize: nat := 12
  /** Images per grid row: the three `add_img` calls. */
  const RowWidth: nat := 3
  /** Rows per page: `range(4)`. */
  const RowsPerPage: nat := 4

  /** A grid slot: an image path, or `None` for padding, which draws nothing. */
  type Cell = Option<string>

  /** One row of a page: three cells, drawn at Left, Centre and Right. */
  type Row = r: seq<Cell> | |r| == 3 witness [None, None, None]

  datatype Kind = QR | Card

  /** A page added with `pdf.add_page()`, and the rows drawn on it. */
  datatype Page = Page(kind: Kind, rows: seq<Row>)

  /** Horizontal position of an image: fpdf's `Align.L`, `Align.C`, `Align.R`. */
  datatype Align = L | C | R

  /** One `pdf.image` call: an image put into grid row `row` at `align`. */
  datatype Placement = Placement(row: nat, align: Align, image: string)

  /** A generator over a sorted list of file names: the list and how much of it
      has been consumed. */
  datatype Stream = Stream(items: seq<string>, pos: nat) {
    predicate Valid() { pos <= |items| }
  }

  // ---------------------------------------------------------------------------
  // Cells

  /** Every path as a present cell. */
  function Wrap(xs: seq<string>): (cells: seq<Cell>)
    ensures |cells| == |xs|
  {
    if xs == [] then [] else Wrap(xs[..|xs| - 1]) + [Some(xs[|xs| - 1])]
  }

  /** `n` empty cells. */
  function Padding(n: nat): (cells: seq<Cell>)
    ensures |cells| == n
  {
    if n == 0 then [] else Padding(n - 1) + [None]
  }

  /** The images among `cells`, in order, with the padding dropped. */
  function Present(cells: seq<Cell>): seq<string>
  {
    if cells == [] then []
    else (match cells[0] case Some(x) => [x] case None => []) + Present(cells[1..])
  }

  /** Number of `None`s that `while len(out) % 3 != 0: out.append(None)` adds
      to a list of length `n`. */
  function RowPadding(n: nat): (p: nat)
    ensures p < RowWidth
    ensures (n + p) % RowWidth == 0
  {
    (RowWidth - n % RowWidth) % RowWidth
  }

  // ---------------------------------------------------------------------------
  // next_of

  /** Number of images one `next_of` call takes from `s`. */
  function Taken(s: Stream): nat
    requires s.Valid()
  {
    Min(GroupSize, |s.items| - s.pos)
  }

  /** The list `next_of` builds from `s`: the next (at most twelve) images, and,
      when the stream ran out first, `None` up to the end of the last row. */
  function Group(s: Stream): seq<Cell>
    requires s.Valid()
  {
    Wrap(s.items[s.pos..s.pos + Taken(s)]) + Padding(RowPadding(Taken(s)))
  }

  /** The stream after one `next_of` call. */
  function AfterGroup(s: Stream): (rest: Stream)
    requires s.Valid()
    ensures rest.Valid() && rest.items == s.items
    ensures rest.pos == s.pos + Taken(s)
  {
    Stream(s.items, s.pos + Taken(s))
  }

  /** `while len(out) % 3 != 0: out.append(None)`: complete the row in
      progress with `None`s. */
  method PadRow(cells: seq<Cell>) returns (out: seq<Cell>)
    ensures out == cells + Padding(RowPadding(|cells|))
    ensures |out| % RowWidth == 0
  {
    var p := RowPadding(|cells|);
    out := cells;
    while |out| % RowWidth != 0
      invariant |cells| <= |out| <= |cells| + p
      invariant out == cells + Padding(|out| - |cells|)
      decreases |cells| + p - |out|
    {
      var d := |out| - |cells|;
      assert Padding(d + 1) == Padding(d) + [None];
      out := out + [None];
    }
    assert (|cells| + p) % RowWidth == 0;
  }

  /** `next_of(gen)`: append `next(gen)` until twelve images are collected; on
      `StopIteration` pad with `None` to a multiple of three and stop. */
  method NextOf(s: Stream) returns (group: seq<Cell>, rest: Stream)
    requires s.Valid()
    ensures group == Group(s)
    ensures rest == AfterGroup(s)
  {
    var out: seq<Cell> := [];
    rest := s;
    while |out| < GroupSize
      invariant rest.items == s.items && s.pos <= rest.pos <= |s.items|
      invariant out == Wrap(s.items[s.pos..rest.pos])
      invariant |out| == rest.pos - s.pos <= GroupSize
    {
      if rest.pos == |rest.items| {
        // StopIteration: complete the row in progress
        out := PadRow(out);
        break;
      }
      var next := rest.pos + 1;
      assert s.items[s.pos..next][..rest.pos - s.pos] == s.items[s.pos..rest.pos];
      out := out + [Some(rest.items[rest.pos])];
      rest := Stream(rest.items, next);
    }
    group := out;
  }

  // ---------------------------------------------------------------------------
  // One page

  /** A row as drawn: as taken for a QR page, reversed (`[::-1]`) for a card page. */
  function Orient(kind: Kind, images: Row): Row
  {
    match kind
    case QR => images
    case Card => [images[2], images[1], images[0]]
  }

  /** The rows drawn from `cells` when at most `budget` more rows fit on the
      page: one row per whole triple, in order. */
  function PageRows(kind: Kind, cells: seq<Cell>, budget: nat): seq<Row>
  {
    if budget == 0 || |cells| < RowWidth then []
    else [Orient(kind, cells[..3])] + PageRows(kind, cells[3..], budget - 1)
  }

  /** The page drawn from `group`, if any: a page is added only once the first
      triple has been drawn, and it holds at most four rows. */
  function PageOf(kind: Kind, group: seq<Cell>): Option<Page>
  {
    if |group| < RowWidth then None else Some(Page(kind, PageRows(kind, group, RowsPerPage)))
  }

  /** Drawing the row that starts at `start` extends the rows drawn so far
      towards the page's rows; when no whole triple follows, the page is
      complete. */
  lemma DrawRowStep(kind: Kind, group: seq<Cell>, rows: seq<Row>, start: nat, budget: nat)
    requires start + RowWidth <= |group| && budget > 0
    requires rows + PageRows(kind, group[start..], budget) == PageRows(kind, group, RowsPerPage)
    ensures (rows + [Orient(kind, group[start..start + 3])]) + PageRows(kind, group[start + 3..], budget - 1)
      == PageRows(kind, group, RowsPerPage)
    ensures |group| < start + 2 * RowWidth ==>
      rows + [Orient(kind, group[start..start + 3])] == PageRows(kind, group, RowsPerPage)
  {
    var cells := group[start..];
    assert cells[..3] == group[start..start + 3];
    assert cells[3..] == group[start + 3..];
    assert PageRows(kind, cells, budget)
      == [Orient(kind, group[start..start + 3])] + PageRows(kind, group[start + 3..], budget - 1);
  }

  /** The `try` block that draws one page: take a triple, add the page, then for
      each of four rows draw the triple and take the next one; the first
      triple that cannot be taken raises `StopIteration`, which ends the page. */
  method DrawPage(kind: Kind, group: seq<Cell>) returns (page: Option<Page>)
    ensures page == PageOf(kind, group)
  {
    if |group| < RowWidth {
      // the first `next` raises before `pdf.add_page()`
      return None;
    }
    var start := 0;
    var images := Orient(kind, group[..3]);
    var rows: seq<Row> := [];
    var row := 0;
    assert group[start..] == group;
    while row < RowsPerPage
      invariant row <= RowsPerPage
      invariant start == 3 * row && start + 3 <= |group|
      invariant images == Orient(kind, group[start..start + 3])
      invariant rows + PageRows(kind, group[start..], RowsPerPage - row)
        == PageRows(kind, group, RowsPerPage)
    {
      DrawRowStep(kind, group, rows, start, RowsPerPage - row);
      rows := rows + [images];
      var next := start + 3;
      if |group| < next + RowWidth {
        // StopIteration from the list comprehension
        assert rows == PageRows(kind, group, RowsPerPage);
        return Some(Page(kind, rows));
      }
      images := Orient(kind, group[next..next + 3]);
      start := next;
      row := row + 1;
    }
    assert PageRows(kind, group[start..], 0) == [];
    assert rows == PageRows(kind, group, RowsPerPage);
    page := Some(Page(kind, rows));
  }

  // ---------------------------------------------------------------------------
  // The whole document

  /** `(n / 12).__ceil__()`: the number of rounds for `n` QR codes. */
  function NumRounds(n: nat): nat
  {
    if n % GroupSize == 0 then n / GroupSize else n / GroupSize + 1
  }

  /** A stream over `items` after `i` draws of `next_of`. */
  function StreamAt(items: seq<string>, i: nat): (s: Stream)
    ensures s.Valid()
  {
    Stream(items, Min(12 * i, |items|))
  }

  function PagesOf(page: Option<Page>): seq<Page>
  {
    match page
    case None => []
    case Some(p) => [p]
  }

  /** The pages of round `i`: the QR page, then the card page. */
  function RoundPages(qr: seq<string>, cards: seq<string>, i: nat): seq<Page>
  {
    PagesOf(PageOf(QR, Group(StreamAt(qr, i)))) + PagesOf(PageOf(Card, Group(StreamAt(cards, i))))
  }

  /** The pages of the first `n` rounds. */
  function Rounds(qr: seq<string>, cards: seq<string>, n: nat): seq<Page>
  {
    if n == 0 then [] else Rounds(qr, cards, n - 1) + RoundPages(qr, cards, n - 1)
  }

  /** The document for the sorted QR paths `qr` and card paths `cards`. */
  function Document(qr: seq<string>, cards: seq<string>): seq<Page>
  {
    Rounds(qr, cards, NumRounds(|qr|))
  }

  /** Each `next_of` call moves a stream on by one group. */
  lemma StreamAtNext(items: seq<string>, i: nat)
    ensures AfterGroup(StreamAt(items, i)) == StreamAt(items, i + 1)
  {
  }

  /** `generate_pdf`: for each of `ceil(len(qr) / 12)` rounds, draw a QR page
      from the next group of QR codes, then a card page from the next group of
      cards. */
  method GeneratePdf(qr: seq<string>, cards: seq<string>) returns (doc: seq<Page>)
    ensures doc == Document(qr, cards)
  {
    var qrCodes := Stream(qr, 0);
    var textImgs := Stream(cards, 0);
    var numPages := NumRounds(|qr|);
    doc := [];
    var pageNumber := 0;
    while pageNumber < numPages
      invariant pageNumber <= numPages
      invariant qrCodes == StreamAt(qr, pageNumber)
      invariant textImgs == StreamAt(cards, pageNumber)
      invariant doc == Rounds(qr, cards, pageNumber)
    {
      var page1;
      page1, qrCodes := NextOf(qrCodes);
      var qrPage := DrawPage(QR, page1);
      var page2;
      page2, textImgs := NextOf(textImgs);
      var cardPage := DrawPage(Card, page2);
      StreamAtNext(qr, pageNumber);
      StreamAtNext(cards, pageNumber);
      doc := doc + (PagesOf(qrPage) + PagesOf(cardPage));
      pageNumber := pageNumber + 1;
    }
  }

  // ---------------------------------------------------------------------------
  // Drawing

  function AlignAt(c: nat): Align
    requires c < RowWidth
  {
    if c == 0 then L else if c == 1 then C else R
  }

  /** `add_img`: a `None` cell draws nothing, an image is placed in its slot. */
  function AddImg(img: Cell, row: nat, align: Align): (ps: seq<Placement>)
    ensures img.None? ==> ps == []
    ensures img.Some? ==> ps == [Placement(row, align, img.value)]
  {
    match img
    case None => []
    case Some(path) => [Placement(row, align, path)]
  }

  /** The three `add_img` calls of one row. */
  function RowPlacements(row: nat, images: Row): seq<Placement>
  {
    AddImg(images[0], row, L) + AddImg(images[1], row, C) + AddImg(images[2], row, R)
  }

  /** Everything drawn for the given rows, row after row. */
  function RowsPlacements(rows: seq<Row>): seq<Placement>
  {
    if rows == [] then []
    else RowsPlacements(rows[..|rows| - 1]) + RowPlacements(|rows| - 1, rows[|rows| - 1])
  }

  function PagePlacements(page: Page): seq<Placement>
  {
    RowsPlacements(page.rows)
  }
}
