/** What the layout of `generate_pdf` guarantees: the shape of a group, where
    each image lands on its page, how many pages of each kind there are and in
    which order, and that the QR pages show the whole QR stream in order. */
module PaginationProperties {
  import opened Wrappers
  import opened PdfPagination

  // ---------------------------------------------------------------------------
  // Cells

  lemma {:induction false} PresentAppend(a: seq<Cell>, b: seq<Cell>)
    ensures Present(a + b) == Present(a) + Present(b)
  {
    if a != [] {
      assert (a + b)[0] == a[0];
      assert (a + b)[1..] == a[1..] + b;
      PresentAppend(a[1..], b);
    } else {
      assert a + b == b;
    }
  }

  lemma PresentOne(c: Cell)
    ensures Present([c]) == if c.Some? then [c.value] else []
  {
    assert [c][1..] == [];
  }

  lemma {:induction false} PresentWrap(xs: seq<string>)
    ensures Present(Wrap(xs)) == xs
  {
    if xs != [] {
      var init := xs[..|xs| - 1];
      PresentWrap(init);
      PresentAppend(Wrap(init), [Some(xs[|xs| - 1])]);
      PresentOne(Some(xs[|xs| - 1]));
      assert init + [xs[|xs| - 1]] == xs;
    }
  }

  lemma {:induction false} PresentPadding(n: nat)
    ensures Present(Padding(n)) == []
  {
    if n > 0 {
      PresentPadding(n - 1);
      PresentAppend(Padding(n - 1), [None]);
      PresentOne(None);
    }
  }

  lemma {:induction false} WrapIndex(xs: seq<string>)
    ensures forall i :: 0 <= i < |xs| ==> Wrap(xs)[i] == Some(xs[i])
  {
    if xs != [] {
      WrapIndex(xs[..|xs| - 1]);
    }
  }

  lemma {:induction false} PaddingIndex(n: nat)
    ensures forall i :: 0 <= i < n ==> Padding(n)[i] == None
  {
    if n > 0 {
      PaddingIndex(n - 1);
    }
  }

  // ---------------------------------------------------------------------------
  // next_of

  /** A group is a whole number of rows, at most twelve cells, padded by
      fewer than three cells, and padded only once the stream is used up; a
      draw from an exhausted stream is empty, without padding. */
  lemma GroupLength(s: Stream)
    requires s.Valid()
    ensures |Group(s)| % RowWidth == 0 && |Group(s)| <= GroupSize
    ensures Taken(s) <= |Group(s)| < Taken(s) + RowWidth
    ensures |Group(s)| > Taken(s) ==> AfterGroup(s).pos == |s.items|
    ensures Group(s) == [] <==> s.pos == |s.items|
  {
    var k := Taken(s);
    assert |Group(s)| == k + RowPadding(k);
    RowPaddingBound(k);
  }

  /** Cell `j` of a group is the stream's next `j`-th image, or padding past
      the images taken. */
  lemma GroupCells(s: Stream)
    requires s.Valid()
    ensures forall j :: 0 <= j < |Group(s)| ==>
      Group(s)[j] == if j < Taken(s) then Some(s.items[s.pos + j]) else None
  {
    var k := Taken(s);
    var xs := s.items[s.pos..s.pos + k];
    WrapIndex(xs);
    PaddingIndex(RowPadding(k));
  }

  /** The images of a group are the stream's next images, in order. */
  lemma GroupImages(s: Stream)
    requires s.Valid()
    ensures Present(Group(s)) == s.items[s.pos..s.pos + Taken(s)]
  {
    var k := Taken(s);
    var xs := s.items[s.pos..s.pos + k];
    PresentAppend(Wrap(xs), Padding(RowPadding(k)));
    PresentWrap(xs);
    PresentPadding(RowPadding(k));
  }

  /** `next_of` takes the stream's images in order, at most twelve; when the
      stream runs out it pads with fewer than three `None`s up to a whole row;
      a draw from an exhausted stream is empty, without padding. */
  lemma GroupShape(s: Stream)
    requires s.Valid()
    ensures |Group(s)| % RowWidth == 0 && |Group(s)| <= GroupSize
    ensures Taken(s) <= |Group(s)| < Taken(s) + RowWidth
    ensures forall j :: 0 <= j < |Group(s)| ==>
      Group(s)[j] == if j < Taken(s) then Some(s.items[s.pos + j]) else None
    ensures Present(Group(s)) == s.items[s.pos..s.pos + Taken(s)]
    ensures |Group(s)| > Taken(s) ==> AfterGroup(s).pos == |s.items|
    ensures Group(s) == [] <==> s.pos == |s.items|
  {
    GroupLength(s);
    GroupCells(s);
    GroupImages(s);
  }

  /** Padding never takes a group past twelve cells. */
  lemma RowPaddingBound(k: nat)
    requires k <= GroupSize
    ensures k + RowPadding(k) <= GroupSize
    ensures k == 0 ==> RowPadding(k) == 0
  {
    var q := (k + RowPadding(k)) / RowWidth;
    assert k + RowPadding(k) == RowWidth * q;
  }

  // ---------------------------------------------------------------------------
  // One page

  /** The slot of a page, counted in the order its images were drawn from the
      group, at which column `c` of row `r` takes its cell. */
  function SourceIndex(kind: Kind, r: nat, c: nat): nat
    requires c < RowWidth
  {
    match kind
    case QR => 3 * r + c
    case Card => 3 * r + (2 - c)
  }

  /** The page drawn from a group of `next_of`: it exists exactly when the
      stream still had an image; it has one row per started triple; on a QR
      page image `3r + c` of the group is in row `r`, column `c`, and on a card
      page the row is the padded triple reversed, so image `3r + c` is in
      column `2 - c`; padding sits where the triple ran out. */
  lemma PageLayout(kind: Kind, s: Stream)
    requires s.Valid()
    ensures PageOf(kind, Group(s)).Some? <==> Taken(s) > 0
    ensures PageOf(kind, Group(s)).Some? ==>
      var page := PageOf(kind, Group(s)).value;
      && page.kind == kind
      && |page.rows| == NumRows(Taken(s))
      && |page.rows| <= RowsPerPage
      && forall r, c :: 0 <= r < |page.rows| && 0 <= c < RowWidth ==>
           page.rows[r][c] ==
             if SourceIndex(kind, r, c) < Taken(s)
             then Some(s.items[s.pos + SourceIndex(kind, r, c)])
             else None
  {
    PageRowCount(kind, s);
    if Taken(s) > 0 {
      PageContent(kind, s);
    }
  }

  /** A page is drawn exactly when the stream still had an image; it has one
      row per started triple, at most four. */
  lemma PageRowCount(kind: Kind, s: Stream)
    requires s.Valid()
    ensures PageOf(kind, Group(s)).Some? <==> Taken(s) > 0
    ensures PageOf(kind, Group(s)).Some? ==>
      && PageOf(kind, Group(s)).value.kind == kind
      && |PageOf(kind, Group(s)).value.rows| == NumRows(Taken(s)) <= RowsPerPage
  {
    var k := Taken(s);
    GroupLength(s);
    NumRowsPadded(k);
    if k > 0 {
      PageRowsIndex(kind, Group(s), RowsPerPage);
    }
  }

  /** The cell at row `r`, column `c` of a page holds the stream image at
      `SourceIndex(kind, r, c)` past the cursor, or padding. */
  lemma PageContent(kind: Kind, s: Stream)
    requires s.Valid() && Taken(s) > 0
    ensures PageOf(kind, Group(s)).Some?
    ensures var page := PageOf(kind, Group(s)).value;
      forall r, c :: 0 <= r < |page.rows| && 0 <= c < RowWidth ==>
        page.rows[r][c] ==
          if SourceIndex(kind, r, c) < Taken(s)
          then Some(s.items[s.pos + SourceIndex(kind, r, c)])
          else None
  {
    var g := Group(s);
    var k := Taken(s);
    GroupLength(s);
    GroupCells(s);
    PageCells(kind, g);
    var page := PageOf(kind, g).value;
    forall r, c | 0 <= r < |page.rows| && 0 <= c < RowWidth
      ensures page.rows[r][c] ==
        if SourceIndex(kind, r, c) < k then Some(s.items[s.pos + SourceIndex(kind, r, c)]) else None
    {
      var j := SourceIndex(kind, r, c);
      assert page.rows[r][c] == g[j];
    }
  }

  /** Row `r`, column `c` of the page drawn from a whole number of triples holds
      cell `SourceIndex(kind, r, c)` of the group. */
  lemma PageCells(kind: Kind, g: seq<Cell>)
    requires RowWidth <= |g| <= GroupSize && |g| % RowWidth == 0
    ensures PageOf(kind, g).Some?
    ensures |PageOf(kind, g).value.rows| == |g| / RowWidth
    ensures forall r, c :: 0 <= r < |g| / RowWidth && 0 <= c < RowWidth ==>
      SourceIndex(kind, r, c) < |g| && PageOf(kind, g).value.rows[r][c] == g[SourceIndex(kind, r, c)]
  {
    var rows := PageOf(kind, g).value.rows;
    PageRowsIndex(kind, g, RowsPerPage);
    forall r, c | 0 <= r < |g| / RowWidth && 0 <= c < RowWidth
      ensures SourceIndex(kind, r, c) < |g| && rows[r][c] == g[SourceIndex(kind, r, c)]
    {
      assert rows[r] == Orient(kind, g[3 * r..3 * r + 3]);
    }
  }

  /** With budget `b`, the rows are the first `min(b, len / 3)` triples. */
  lemma {:induction false} PageRowsIndex(kind: Kind, g: seq<Cell>, b: nat)
    ensures |PageRows(kind, g, b)| == Min(b, |g| / RowWidth)
    ensures forall r :: 0 <= r < |PageRows(kind, g, b)| ==>
      PageRows(kind, g, b)[r] == Orient(kind, g[3 * r..3 * r + 3])
  {
    if b > 0 && |g| >= RowWidth {
      PageRowsIndex(kind, g[3..], b - 1);
      forall r | 1 <= r < |PageRows(kind, g, b)|
        ensures PageRows(kind, g, b)[r] == Orient(kind, g[3 * r..3 * r + 3])
      {
        assert g[3..][3 * (r - 1)..3 * (r - 1) + 3] == g[3 * r..3 * r + 3];
      }
    }
  }

  lemma NumRowsPadded(k: nat)
    ensures NumRows(k) == (k + RowPadding(k)) / RowWidth
  {
  }

  /** Number of rows needed for `n` images: `n / 3` rounded up. */
  function NumRows(n: nat): nat
  {
    if n % RowWidth == 0 then n / RowWidth else n / RowWidth + 1
  }

  /** When a group ends one image into a triple, the last row of its card
      page is `[None, None, m]` while the QR page's is `[m, None, None]`:
      the triple is padded before it is reversed, so the lone card lands in
      the right-hand column, behind its QR code. */
  lemma PartialCardRow(s: Stream)
    requires s.Valid() && Taken(s) % RowWidth == 1
    ensures PageOf(QR, Group(s)).Some? && PageOf(Card, Group(s)).Some?
    ensures var m := s.items[s.pos + Taken(s) - 1];
      var rows := PageOf(QR, Group(s)).value.rows;
      |rows| > 0 && rows[|rows| - 1] == [Some(m), None, None]
    ensures var m := s.items[s.pos + Taken(s) - 1];
      var rows := PageOf(Card, Group(s)).value.rows;
      |rows| > 0 && rows[|rows| - 1] == [None, None, Some(m)]
  {
    var k := Taken(s);
    var m := s.items[s.pos + k - 1];
    PageLayout(QR, s);
    PageLayout(Card, s);
    var last := k / RowWidth;
    var qrRows := PageOf(QR, Group(s)).value.rows;
    var cardRows := PageOf(Card, Group(s)).value.rows;
    assert |qrRows| == last + 1 && |cardRows| == last + 1;
    assert qrRows[last][0] == Some(m) && qrRows[last][1] == None && qrRows[last][2] == None;
    assert cardRows[last][0] == None && cardRows[last][1] == None && cardRows[last][2] == Some(m);
  }

  // ---------------------------------------------------------------------------
  // Reading pages back in stream order

  /** The cells of the rows, row after row: the order in which they are drawn. */
  function Cells(rows: seq<Row>): seq<Cell>
  {
    if rows == [] then [] else rows[0] + Cells(rows[1..])
  }

  /** The rows turned back the way they were taken from the stream. */
  function UnmirrorRows(kind: Kind, rows: seq<Row>): seq<Row>
  {
    if rows == [] then [] else [Orient(kind, rows[0])] + UnmirrorRows(kind, rows[1..])
  }

  /** The cells of a page in the order they were drawn from the stream. */
  function StreamOrder(page: Page): seq<Cell>
  {
    Cells(UnmirrorRows(page.kind, page.rows))
  }

  lemma {:induction false} UnmirrorQR(rows: seq<Row>)
    ensures UnmirrorRows(QR, rows) == rows
  {
    if rows != [] {
      UnmirrorQR(rows[1..]);
    }
  }

  /** Turning the rows of a page back gives the rows of a QR page of the same group. */
  lemma {:induction false} UnmirrorPageRows(kind: Kind, g: seq<Cell>, b: nat)
    ensures UnmirrorRows(kind, PageRows(kind, g, b)) == PageRows(QR, g, b)
  {
    if b > 0 && |g| >= RowWidth {
      UnmirrorPageRows(kind, g[3..], b - 1);
      var row := g[..3];
      assert Orient(kind, Orient(kind, row)) == row;
    }
  }

  /** The rows of a QR page, read row after row, are the whole triples of the group. */
  lemma {:induction false} CellsPageRows(g: seq<Cell>, b: nat)
    ensures Cells(PageRows(QR, g, b)) == g[..3 * Min(b, |g| / RowWidth)]
  {
    if b > 0 && |g| >= RowWidth {
      CellsPageRows(g[3..], b - 1);
      assert g[..3] + g[3..][..3 * Min(b - 1, (|g| - 3) / RowWidth)]
        == g[..3 * Min(b, |g| / RowWidth)];
    }
  }

  /** The images of all pages of one kind, page after page, in stream order. */
  function Recovered(doc: seq<Page>, kind: Kind): seq<string>
  {
    if doc == [] then []
    else
      var last := doc[|doc| - 1];
      Recovered(doc[..|doc| - 1], kind) + (if last.kind == kind then Present(StreamOrder(last)) else [])
  }

  lemma {:induction false} RecoveredAppend(a: seq<Page>, b: seq<Page>, kind: Kind)
    ensures Recovered(a + b, kind) == Recovered(a, kind) + Recovered(b, kind)
  {
    if b != [] {
      assert (a + b)[|a + b| - 1] == b[|b| - 1];
      assert (a + b)[..|a + b| - 1] == a + b[..|b| - 1];
      RecoveredAppend(a, b[..|b| - 1], kind);
    } else {
      assert a + b == a;
    }
  }

  /** Reading a page back in stream order gives the group it was drawn from. */
  lemma PageStreamOrder(kind: Kind, s: Stream)
    requires s.Valid() && Taken(s) > 0
    ensures PageOf(kind, Group(s)).Some?
    ensures StreamOrder(PageOf(kind, Group(s)).value) == Group(s)
  {
    GroupLength(s);
    var g := Group(s);
    UnmirrorPageRows(kind, g, RowsPerPage);
    CellsPageRows(g, RowsPerPage);
    assert g[..|g|] == g;
  }

  /** The page one `next_of` group yields, read back, holds the images that
      group took; it holds nothing of the other kind. */
  lemma PageRecovered(kind: Kind, other: Kind, s: Stream)
    requires s.Valid() && other != kind
    ensures Recovered(PagesOf(PageOf(kind, Group(s))), kind) == s.items[s.pos..s.pos + Taken(s)]
    ensures Recovered(PagesOf(PageOf(kind, Group(s))), other) == []
  {
    GroupLength(s);
    GroupImages(s);
    var pages := PagesOf(PageOf(kind, Group(s)));
    if Taken(s) > 0 {
      PageStreamOrder(kind, s);
      assert pages[..0] == [];
    }
  }

  /** The stream a page of the given kind is drawn from. */
  function Source(kind: Kind, qr: seq<string>, cards: seq<string>): seq<string>
  {
    match kind
    case QR => qr
    case Card => cards
  }

  /** The pages of round `i`, read back, hold the `i`-th group of each stream. */
  lemma RoundRecovered(qr: seq<string>, cards: seq<string>, kind: Kind, i: nat)
    ensures var xs := Source(kind, qr, cards);
      Recovered(RoundPages(qr, cards, i), kind) == xs[StreamAt(xs, i).pos..StreamAt(xs, i + 1).pos]
  {
    var sq := StreamAt(qr, i);
    var sc := StreamAt(cards, i);
    var a := PagesOf(PageOf(QR, Group(sq)));
    var b := PagesOf(PageOf(Card, Group(sc)));
    RecoveredAppend(a, b, kind);
    StreamAtNext(qr, i);
    StreamAtNext(cards, i);
    PageRecovered(QR, Card, sq);
    PageRecovered(Card, QR, sc);
    if kind == QR {
      assert Recovered(a + b, kind) == qr[sq.pos..sq.pos + Taken(sq)];
    } else {
      assert Recovered(a + b, kind) == cards[sc.pos..sc.pos + Taken(sc)];
    }
  }

  lemma {:induction false} RoundsRecovered(qr: seq<string>, cards: seq<string>, kind: Kind, n: nat)
    ensures var xs := Source(kind, qr, cards);
      Recovered(Rounds(qr, cards, n), kind) == xs[..StreamAt(xs, n).pos]
  {
    if n > 0 {
      var xs := Source(kind, qr, cards);
      var m := n - 1;
      RoundsRecovered(qr, cards, kind, m);
      RoundRecovered(qr, cards, kind, m);
      assert m + 1 == n;
      RecoveredStep(Rounds(qr, cards, m), RoundPages(qr, cards, m), kind, xs,
        StreamAt(xs, m).pos, StreamAt(xs, n).pos);
    }
  }

  lemma RecoveredStep(prev: seq<Page>, round: seq<Page>, kind: Kind, xs: seq<string>, a: nat, b: nat)
    requires a <= b <= |xs|
    requires Recovered(prev, kind) == xs[..a] && Recovered(round, kind) == xs[a..b]
    ensures Recovered(prev + round, kind) == xs[..b]
  {
    RecoveredAppend(prev, round, kind);
    SliceJoin(xs, a, b);
  }

  lemma SliceJoin(xs: seq<string>, a: nat, b: nat)
    requires a <= b <= |xs|
    ensures xs[..a] + xs[a..b] == xs[..b]
  {
  }

  /** The non-padding cells of the QR pages, page after page, are the whole
      sorted QR stream; the card pages show the cards in order, but only the
      first `12 * ceil(len(qr) / 12)` of them: later cards are never placed. */
  lemma DocumentContents(qr: seq<string>, cards: seq<string>)
    ensures Recovered(Document(qr, cards), QR) == qr
    ensures Recovered(Document(qr, cards), Card)
      == cards[..Min(|cards|, 12 * NumRounds(|qr|))]
  {
    RoundsRecovered(qr, cards, QR, NumRounds(|qr|));
    RoundsRecovered(qr, cards, Card, NumRounds(|qr|));
    assert qr[..|qr|] == qr;
  }

  // ---------------------------------------------------------------------------
  // Page counts and order

  function Count(doc: seq<Page>, kind: Kind): nat
  {
    if doc == [] then 0
    else Count(doc[..|doc| - 1], kind) + (if doc[|doc| - 1].kind == kind then 1 else 0)
  }

  lemma {:induction false} CountAppend(a: seq<Page>, b: seq<Page>, kind: Kind)
    ensures Count(a + b, kind) == Count(a, kind) + Count(b, kind)
  {
    if b != [] {
      assert (a + b)[|a + b| - 1] == b[|b| - 1];
      assert (a + b)[..|a + b| - 1] == a + b[..|b| - 1];
      CountAppend(a, b[..|b| - 1], kind);
    } else {
      assert a + b == a;
    }
  }

  /** The kind of page `j` when every round up to the `cardRounds`-th has a
      card page and no later one does: QR and card pages alternate, then only
      QR pages follow. */
  function KindAt(cardRounds: nat, j: nat): Kind
  {
    if j < 2 * cardRounds && j % 2 == 1 then Card else QR
  }

  /** A round has a page of a kind exactly when the stream of that kind has not
      run out before the round. */
  lemma RoundHasPage(items: seq<string>, kind: Kind, i: nat)
    ensures PageOf(kind, Group(StreamAt(items, i))).Some? <==> i < NumRounds(|items|)
  {
    GroupLength(StreamAt(items, i));
  }

  /** The pages of one round: a QR page, then a card page while cards last. */
  lemma RoundPagesOf(qr: seq<string>, cards: seq<string>, i: nat)
    requires i < NumRounds(|qr|)
    ensures var qrPage := PageOf(QR, Group(StreamAt(qr, i)));
      var cardPage := PageOf(Card, Group(StreamAt(cards, i)));
      && qrPage.Some? && qrPage.value.kind == QR
      && (cardPage.Some? <==> i < NumRounds(|cards|))
      && (cardPage.Some? ==> cardPage.value.kind == Card)
      && RoundPages(qr, cards, i) == [qrPage.value] + PagesOf(cardPage)
  {
    RoundHasPage(qr, QR, i);
    RoundHasPage(cards, Card, i);
  }

  lemma RoundCount(qr: seq<string>, cards: seq<string>, i: nat)
    requires i < NumRounds(|qr|)
    ensures |RoundPages(qr, cards, i)| == if i < NumRounds(|cards|) then 2 else 1
    ensures Count(RoundPages(qr, cards, i), QR) == 1
    ensures Count(RoundPages(qr, cards, i), Card) == if i < NumRounds(|cards|) then 1 else 0
  {
    RoundPagesOf(qr, cards, i);
    var round := RoundPages(qr, cards, i);
    var qrPage := PageOf(QR, Group(StreamAt(qr, i))).value;
    if i < NumRounds(|cards|) {
      var cardPage := PageOf(Card, Group(StreamAt(cards, i))).value;
      assert round == [qrPage, cardPage];
      assert round[..1] == [qrPage] && [qrPage][..0] == [];
    } else {
      assert round == [qrPage];
      assert round[..0] == [];
    }
  }

  lemma RoundKinds(qr: seq<string>, cards: seq<string>, i: nat)
    requires i < NumRounds(|qr|)
    ensures forall j :: 0 <= j < |RoundPages(qr, cards, i)| ==>
      RoundPages(qr, cards, i)[j].kind == if j == 1 then Card else QR
  {
    RoundPagesOf(qr, cards, i);
  }

  /** Page counts after one more round. */
  lemma ShapeStep(prev: seq<Page>, round: seq<Page>, m: nat, c: nat)
    requires |prev| == m + Min(m, c)
    requires Count(prev, QR) == m && Count(prev, Card) == Min(m, c)
    requires |round| == (if m < c then 2 else 1)
    requires Count(round, QR) == 1 && Count(round, Card) == (if m < c then 1 else 0)
    ensures |prev + round| == m + 1 + Min(m + 1, c)
    ensures Count(prev + round, QR) == m + 1
    ensures Count(prev + round, Card) == Min(m + 1, c)
  {
    CountAppend(prev, round, QR);
    CountAppend(prev, round, Card);
  }

  lemma {:induction false} RoundsShape(qr: seq<string>, cards: seq<string>, n: nat)
    requires n <= NumRounds(|qr|)
    ensures |Rounds(qr, cards, n)| == n + Min(n, NumRounds(|cards|))
    ensures Count(Rounds(qr, cards, n), QR) == n
    ensures Count(Rounds(qr, cards, n), Card) == Min(n, NumRounds(|cards|))
  {
    if n > 0 {
      var m := n - 1;
      RoundsShape(qr, cards, m);
      RoundCount(qr, cards, m);
      ShapeStep(Rounds(qr, cards, m), RoundPages(qr, cards, m), m, NumRounds(|cards|));
      assert Rounds(qr, cards, n) == Rounds(qr, cards, m) + RoundPages(qr, cards, m);
    }
  }

  /** How the page kinds of `m` rounds carry over to `m + 1` rounds, with `c`
      rounds holding a card page. */
  lemma KindAtStep(m: nat, c: nat, j: nat)
    ensures j < m + Min(m, c) ==> KindAt(Min(m, c), j) == KindAt(Min(m + 1, c), j)
    ensures m < c && j == 2 * m ==> KindAt(Min(m + 1, c), j) == QR
    ensures m < c && j == 2 * m + 1 ==> KindAt(Min(m + 1, c), j) == Card
    ensures c <= m && j == m + c ==> KindAt(Min(m + 1, c), j) == QR
  {
  }

  /** Page kinds after one more round. */
  lemma KindsStep(prev: seq<Page>, round: seq<Page>, m: nat, c: nat)
    requires |prev| == m + Min(m, c)
    requires KindsAlternate(prev, Min(m, c))
    requires |round| == (if m < c then 2 else 1)
    requires forall j :: 0 <= j < |round| ==> round[j].kind == if j == 1 then Card else QR
    ensures KindsAlternate(prev + round, Min(m + 1, c))
  {
    var doc := prev + round;
    forall j | 0 <= j < |doc|
      ensures doc[j].kind == KindAt(Min(m + 1, c), j)
    {
      KindAtStep(m, c, j);
      if j < |prev| {
        assert doc[j] == prev[j];
      } else {
        assert doc[j] == round[j - |prev|];
      }
    }
  }

  predicate KindsAlternate(doc: seq<Page>, cardRounds: nat)
  {
    forall j :: 0 <= j < |doc| ==> doc[j].kind == KindAt(cardRounds, j)
  }

  lemma RoundsKindsStep(qr: seq<string>, cards: seq<string>, m: nat)
    requires m < NumRounds(|qr|)
    requires KindsAlternate(Rounds(qr, cards, m), Min(m, NumRounds(|cards|)))
    ensures KindsAlternate(Rounds(qr, cards, m + 1), Min(m + 1, NumRounds(|cards|)))
  {
    RoundsShape(qr, cards, m);
    RoundCount(qr, cards, m);
    RoundKinds(qr, cards, m);
    KindsStep(Rounds(qr, cards, m), RoundPages(qr, cards, m), m, NumRounds(|cards|));
  }

  lemma {:induction false} RoundsKinds(qr: seq<string>, cards: seq<string>, n: nat)
    requires n <= NumRounds(|qr|)
    ensures KindsAlternate(Rounds(qr, cards, n), Min(n, NumRounds(|cards|)))
  {
    if n > 0 {
      var m := n - 1;
      RoundsKinds(qr, cards, m);
      RoundsKindsStep(qr, cards, m);
    }
  }

  /** There are exactly `ceil(len(qr) / 12)` QR pages and
      `min(ceil(len(qr) / 12), ceil(len(cards) / 12))` card pages, never more
      card pages than QR pages; pages alternate QR, card until the card stream
      is used up, and only QR pages follow. */
  lemma DocumentShape(qr: seq<string>, cards: seq<string>)
    ensures Count(Document(qr, cards), QR) == NumRounds(|qr|)
    ensures Count(Document(qr, cards), Card) == Min(NumRounds(|qr|), NumRounds(|cards|))
    ensures Count(Document(qr, cards), Card) <= Count(Document(qr, cards), QR)
    ensures |Document(qr, cards)| == NumRounds(|qr|) + Min(NumRounds(|qr|), NumRounds(|cards|))
    ensures forall j :: 0 <= j < |Document(qr, cards)| ==>
      Document(qr, cards)[j].kind == KindAt(Min(NumRounds(|qr|), NumRounds(|cards|)), j)
  {
    RoundsShape(qr, cards, NumRounds(|qr|));
    RoundsKinds(qr, cards, NumRounds(|qr|));
  }

  /** No QR codes, no pages, whatever the cards. */
  lemma EmptyDocument(cards: seq<string>)
    ensures Document([], cards) == []
  {
  }

  // ---------------------------------------------------------------------------
  // Drawing

  function Images(ps: seq<Placement>): seq<string>
  {
    if ps == [] then [] else Images(ps[..|ps| - 1]) + [ps[|ps| - 1].image]
  }

  lemma {:induction false} ImagesAppend(a: seq<Placement>, b: seq<Placement>)
    ensures Images(a + b) == Images(a) + Images(b)
  {
    if b != [] {
      assert (a + b)[..|a + b| - 1] == a + b[..|b| - 1];
      ImagesAppend(a, b[..|b| - 1]);
    } else {
      assert a + b == a;
    }
  }

  function AlignIndex(a: Align): (c: nat)
    ensures c < RowWidth && AlignAt(c) == a
  {
    match a
    case L => 0
    case C => 1
    case R => 2
  }

  /** `add_img` draws the image of a cell, and nothing for padding. */
  lemma AddImgImages(cell: Cell, r: nat, align: Align)
    ensures Images(AddImg(cell, r, align)) == Present([cell])
  {
    PresentOne(cell);
    if cell.Some? {
      assert AddImg(cell, r, align)[..0] == [];
    }
  }

  /** The three `add_img` calls of a row draw its images left to right. */
  lemma RowImages(r: nat, row: Row)
    ensures Images(RowPlacements(r, row)) == Present(row)
  {
    var a, b, c := AddImg(row[0], r, L), AddImg(row[1], r, C), AddImg(row[2], r, R);
    AddImgImages(row[0], r, L);
    AddImgImages(row[1], r, C);
    AddImgImages(row[2], r, R);
    ImagesAppend(a, b);
    ImagesAppend(a + b, c);
    PresentAppend([row[0]], [row[1]]);
    PresentAppend([row[0]] + [row[1]], [row[2]]);
    assert row == [row[0]] + [row[1]] + [row[2]];
  }

  /** Each image of a row is placed in its own column, and a `None` cell
      draws nothing. */
  lemma RowPlaced(r: nat, row: Row)
    ensures forall p :: p in RowPlacements(r, row) ==>
      p.row == r && row[AlignIndex(p.align)] == Some(p.image)
    ensures forall c :: 0 <= c < RowWidth && row[c].Some? ==>
      Placement(r, AlignAt(c), row[c].value) in RowPlacements(r, row)
  {
    var left, centre, right := AddImg(row[0], r, L), AddImg(row[1], r, C), AddImg(row[2], r, R);
    assert RowPlacements(r, row) == left + centre + right;
    forall p: Placement | p in left + centre + right
      ensures p.row == r && row[AlignIndex(p.align)] == Some(p.image)
    {
      if p in left {
        assert p == Placement(r, L, row[0].value);
      } else if p in centre {
        assert p == Placement(r, C, row[1].value);
      } else {
        assert p == Placement(r, R, row[2].value);
      }
    }
    forall c | 0 <= c < RowWidth && row[c].Some?
      ensures Placement(r, AlignAt(c), row[c].value) in left + centre + right
    {
      if c == 0 {
        assert Placement(r, L, row[0].value) in left;
      } else if c == 1 {
        assert Placement(r, C, row[1].value) in centre;
      } else {
        assert Placement(r, R, row[2].value) in right;
      }
    }
  }

  lemma {:induction false} CellsSnoc(rows: seq<Row>, last: Row)
    ensures Cells(rows + [last]) == Cells(rows) + last
  {
    if rows != [] {
      assert (rows + [last])[1..] == rows[1..] + [last];
      CellsSnoc(rows[1..], last);
    } else {
      assert rows + [last] == [last];
    }
  }

  /** The images `add_img` places for the given rows are their non-padding
      cells in drawing order. */
  lemma {:induction false} RowsImages(rows: seq<Row>)
    ensures Images(RowsPlacements(rows)) == Present(Cells(rows))
  {
    if rows != [] {
      var k := |rows| - 1;
      var init := rows[..k];
      var last := rows[k];
      var before := RowsPlacements(init);
      var now := RowPlacements(k, last);
      assert RowsPlacements(rows) == before + now;
      RowsImages(init);
      RowImages(k, last);
      ImagesAppend(before, now);
      assert rows == init + [last];
      CellsSnoc(init, last);
      PresentAppend(Cells(init), last);
    }
  }

  /** Each image placed for the given rows sits at the row and column of its
      cell, and every non-padding cell is placed. */
  lemma {:induction false} RowsPlaced(rows: seq<Row>)
    ensures forall p :: p in RowsPlacements(rows) ==>
      p.row < |rows| && rows[p.row][AlignIndex(p.align)] == Some(p.image)
    ensures forall r, c :: 0 <= r < |rows| && 0 <= c < RowWidth && rows[r][c].Some? ==>
      Placement(r, AlignAt(c), rows[r][c].value) in RowsPlacements(rows)
  {
    if rows != [] {
      var k := |rows| - 1;
      var init := rows[..k];
      var last := rows[k];
      RowsPlaced(init);
      RowPlaced(k, last);
      assert RowsPlacements(rows) == RowsPlacements(init) + RowPlacements(k, last);
      forall p | p in RowsPlacements(init)
        ensures p.row < |rows| && rows[p.row][AlignIndex(p.align)] == Some(p.image)
      {
        assert rows[p.row] == init[p.row];
      }
      forall r, c | 0 <= r < |rows| && 0 <= c < RowWidth && rows[r][c].Some?
        ensures Placement(r, AlignAt(c), rows[r][c].value) in RowsPlacements(rows)
      {
        if r < k {
          assert rows[r] == init[r];
        }
      }
    }
  }

  /** Everything drawn on a page: exactly its non-padding cells, each at the
      row and column of its cell, in drawing order. */
  lemma PageDrawn(page: Page)
    ensures Images(PagePlacements(page)) == Present(Cells(page.rows))
    ensures forall p :: p in PagePlacements(page) <==>
      && p.row < |page.rows|
      && page.rows[p.row][AlignIndex(p.align)] == Some(p.image)
  {
    RowsImages(page.rows);
    RowsPlaced(page.rows);
    forall p: Placement | p.row < |page.rows| && page.rows[p.row][AlignIndex(p.align)] == Some(p.image)
      ensures p in PagePlacements(page)
    {
      assert p == Placement(p.row, AlignAt(AlignIndex(p.align)), page.rows[p.row][AlignIndex(p.align)].value);
    }
  }

  /** The images placed on the pages of one kind, page after page, in the
      order `add_img` draws them. */
  function Drawn(doc: seq<Page>, kind: Kind): seq<string>
  {
    if doc == [] then []
    else
      var last := doc[|doc| - 1];
      Drawn(doc[..|doc| - 1], kind) + (if last.kind == kind then Images(PagePlacements(last)) else [])
  }

  lemma {:induction false} DrawnIsRecovered(doc: seq<Page>)
    ensures Drawn(doc, QR) == Recovered(doc, QR)
  {
    if doc != [] {
      DrawnIsRecovered(doc[..|doc| - 1]);
      var last := doc[|doc| - 1];
      if last.kind == QR {
        PageDrawn(last);
        UnmirrorQR(last.rows);
      }
    }
  }

  /** The images drawn on the QR pages, page after page in drawing order, are
      exactly the sorted QR stream. */
  lemma QrImagesDrawn(qr: seq<string>, cards: seq<string>)
    ensures Drawn(Document(qr, cards), QR) == qr
  {
    DrawnIsRecovered(Document(qr, cards));
    DocumentContents(qr, cards);
  }

  /** Mirroring a row draws the same images, in another order. */
  lemma PresentOrient(kind: Kind, row: Row)
    ensures multiset(Present(Orient(kind, row))) == multiset(Present(row))
  {
    if kind == Card {
      var a, b, c := [row[0]], [row[1]], [row[2]];
      PresentAppend(a, b);
      PresentAppend(a + b, c);
      PresentAppend(c, b);
      PresentAppend(c + b, a);
      assert row == a + b + c;
      assert Orient(kind, row) == c + b + a;
    }
  }

  /** Rows drawn mirrored or not hold the same images. */
  lemma {:induction false} UnmirrorImages(kind: Kind, rows: seq<Row>)
    ensures multiset(Present(Cells(UnmirrorRows(kind, rows)))) == multiset(Present(Cells(rows)))
  {
    if rows != [] {
      var rest := rows[1..];
      UnmirrorImages(kind, rest);
      PresentOrient(kind, rows[0]);
      PresentAppend(rows[0], Cells(rest));
      PresentAppend(Orient(kind, rows[0]), Cells(UnmirrorRows(kind, rest)));
    }
  }

  /** The images `add_img` places on the pages of one kind are those the
      pages hold in stream order, each as often. */
  lemma {:induction false} DrawnPermutesRecovered(doc: seq<Page>, kind: Kind)
    ensures multiset(Drawn(doc, kind)) == multiset(Recovered(doc, kind))
  {
    if doc != [] {
      var last := doc[|doc| - 1];
      DrawnPermutesRecovered(doc[..|doc| - 1], kind);
      if last.kind == kind {
        PageDrawn(last);
        UnmirrorImages(last.kind, last.rows);
      }
    }
  }

  /** The card images placed, over the whole document, are the first
      `min(len(cards), 12 * ceil(len(qr) / 12))` sorted cards, each exactly
      once: a card past that prefix is never placed. */
  lemma CardImagesDrawn(qr: seq<string>, cards: seq<string>)
    ensures multiset(Drawn(Document(qr, cards), Card))
      == multiset(cards[..Min(|cards|, 12 * NumRounds(|qr|))])
    ensures forall x :: x in Drawn(Document(qr, cards), Card) ==>
      x in cards[..Min(|cards|, 12 * NumRounds(|qr|))]
  {
    var doc := Document(qr, cards);
    var shown := cards[..Min(|cards|, 12 * NumRounds(|qr|))];
    DrawnPermutesRecovered(doc, Card);
    DocumentContents(qr, cards);
    forall x | x in Drawn(doc, Card)
      ensures x in shown
    {
      assert x in multiset(Drawn(doc, Card));
    }
  }
}
