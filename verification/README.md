# hipster-hits in Dafny

hipster-hits turns a Spotify playlist into a printable card game: every track
gets a QR code (front) and a text card with year, title and artist (back),
and a PDF lays them out twelve to a sheet so that a printed sheet and its
back line up. This project models the deterministic core of `main.py` and
proves what it guarantees:

- **Print layout** (`pagination.dfy`, module `PdfPagination`): the two sorted
  streams of image paths, `next_of` cutting them into groups of twelve padded
  with `None` to whole rows, the `try` block that draws one page of at most
  four rows of three, the mirrored rows of the card pages, the round loop of
  `generate_pdf`, and the `(row, column)` slot of every `add_img` call. The
  methods `NextOf`, `PadRow`, `DrawPage` and `GeneratePdf` follow the
  program's loops and `StopIteration` handling and are proved to compute
  the reference functions `Group`, `PageOf` and `Document`.
- **Layout properties** (`pagination_props.dfy`, module
  `PaginationProperties`): group shape, where each image lands on a page,
  page counts and the QR/card interleaving, and that reading the pages back
  gives the streams.
- **`slugify`** on its ASCII branch (`slugify.dfy`, module `Slugify`), with
  the character classes of `ascii.dfy` (module `Ascii`).
- **Playlist id** handling in `Playlist.__init__` and `id_from_url`, and
  the `tracks` dictionary (`playlist.dfy`, module `Playlists`).
- **`Song.get_simplified_data`** (`songs.dfy`, module `Songs`).

`wrappers.dfy` (module `Wrappers`) holds `Option` for Python values that
may be `None`, `Result` for computations that may raise, and `Min`.

Two consequences of the round loop are easy to miss:

- An exhausted card stream does not end the layout. The loop always runs
  `ceil(len(qr) / 12)` rounds. A round whose card group is empty only
  skips its card page.
- A page holds only the rows drawn from its group, not always twelve cells.
  After the last image no empty rows follow.

## Model

| member | source | states |
|---|---|---|
| PdfPagination.PadRow | main.py:250-251 | completing a row appends the fewest `None`s that make the length a multiple of three, and nothing else |
| PdfPagination.NextOf | main.py:244-253 | `next_of` returns the reference group: the next `min(12, remaining)` images in stream order, then padding up to a whole row only when the stream ran out; the stream advances by exactly the images taken |
| PdfPagination.DrawPage | main.py:265-274 | the `try` block yields no page when fewer than three cells can be drawn, and otherwise one page of the group's whole triples, at most four, each row reversed on a card page |
| PdfPagination.GeneratePdf | main.py:260-285 | the round loop produces exactly the reference document: for each of `ceil(len(qr) / 12)` rounds the QR page of the next QR group, then the card page of the next card group, each only when drawn |
| PaginationProperties.GroupShape | main.py:244-253 | a group has at most twelve cells and a whole number of rows; cell `j` is the stream's next `j`-th image, or `None` past the images taken; padding is fewer than three cells and occurs only once the stream is exhausted; a draw from an exhausted stream is empty |
| PaginationProperties.PageLayout | main.py:265-283 | a page is added exactly when its group holds an image; it has `ceil(taken / 3)` rows, at most four; on a QR page image `3r + c` of the group is at row `r`, column `c`; on a card page it is at column `2 - c`; the remaining cells are padding |
| PaginationProperties.PartialCardRow | main.py:244-277 | when a group ends one image into a triple, the last row of its QR page is `[m, None, None]` and the last row of its card page is `[None, None, m]`: `next_of` pads the triple before the card row is reversed |
| PaginationProperties.PageDrawn | main.py:255-272 | the three `add_img` calls of each row place exactly the page's non-`None` cells, each at its own row and column, in drawing order; a `None` cell places nothing |
| PaginationProperties.RoundHasPage | main.py:262-278 | round `i` has a page of a kind exactly when `i < ceil(len(stream) / 12)` for that kind's stream |
| PaginationProperties.DocumentShape | main.py:260-285 | there are exactly `ceil(len(qr) / 12)` QR pages and `min(ceil(len(qr) / 12), ceil(len(cards) / 12))` card pages, so never more card pages than QR pages; pages alternate QR, card until the cards run out, and only QR pages follow |
| PaginationProperties.DocumentContents | main.py:237-285 | read back in stream order, the QR pages hold the whole sorted QR stream and the card pages hold the sorted cards up to index `12 * ceil(len(qr) / 12)`, so later cards are never placed |
| PaginationProperties.QrImagesDrawn | main.py:237-272 | the images placed on the QR pages, page after page in drawing order, are exactly the sorted QR file names |
| PaginationProperties.CardImagesDrawn | main.py:237-285 | the card images placed over the whole document are the first `min(len(cards), 12 * ceil(len(qr) / 12))` sorted cards, each exactly once, so a card past that prefix is never placed |
| Slugify.SlugifyIsSlug | main.py:307-308 | the output has only lower-case letters, digits, `_` and `-`, hence no whitespace; it has no run of two or more `-`, and does not start or end with `-` or `_` |
| Slugify.CollapseShape | main.py:308 | replacing runs of `-` and whitespace leaves only `-` and the input's other characters, never two `-` in a row |
| Slugify.CollapseKeepsNonSeps | main.py:308 | replacing runs of `-` and whitespace keeps every other character, `_` included, in order, and adds none |
| Slugify.CollapseRun | main.py:293-308 | a maximal run of `-` and whitespace between two other characters (or an end) becomes exactly one `-`, and the text on either side is collapsed on its own |
| Slugify.SlugFixedPoint | main.py:307-308 | `slugify` returns its input unchanged exactly when the input already is a slug |
| Slugify.SlugifyIdempotent | main.py:307-308 | slugifying a slug changes nothing: applying `slugify` twice equals applying it once |
| Slugify.SlugifyKeepsAlnums | main.py:307-308 | no letter or digit is lost or added: the letters and digits of the output are those of the lower-cased input, in order |
| Playlists.IdFromUrlMatch | main.py:213-215 | `id_from_url` fails exactly when no `spotify.com/playlist/` starts before the first line break; otherwise it returns the longest run of `[a-zA-Z0-9]` after the last such marker |
| Playlists.AcceptedId | main.py:132-139 | every accepted id is exactly 22 characters of `[a-zA-Z0-9]`; a non-URL argument can fail only the id check |
| Playlists.VerbatimId | main.py:132-139 | an argument not starting with `https://` is used verbatim as the id and is accepted exactly when it is a valid id |
| Playlists.UrlId | main.py:132-139 | an `https://` argument is replaced by the id `id_from_url` finds in it; a URL without a playlist fails, and the found id is accepted exactly when it is valid |
| Playlists.TracksByIdKeys | main.py:155 | the `tracks` dictionary has a key for every id of a track whose release is not `None`, and no other keys |
| Playlists.TracksByIdEntries | main.py:155 | each entry is filed under its own id and is the last track with that id and a release: a later track replaces an earlier one |
| Playlists.PlaylistTracksKeys | main.py:140-155 | after simplification, the playlist keeps one entry per id of a raw track with a release date; each entry has a release |
| Songs.SimplifiedArtist | main.py:122 | the artist field is empty for no artist, the single name for one artist, and the first two names joined by `", "` otherwise; later artists are dropped |
| Songs.SimplifiedRelease | main.py:115-118 | the release is `None` exactly when the release date is `null`; otherwise it is the first four characters of the date, or the whole of a shorter one |

## Left out

- Spotify API access, result paging and the JSON cache are network and file I/O, so they are not modelled. The raw tracks and the playlist argument are inputs.
- QR rendering (`segno`), SVG/PNG drawing of the text cards (`drawsvg`, `svglib`, `renderPM`) and text wrapping are third-party rendering. The streams of image file names are inputs.
- `glob` and `sorted` produce the two streams from the file system, so the model takes two sorted sequences.
- FPDF page output and float coordinates (`pdf.epw`, `margin + row * w`) are not modelled: an image's position is its `(row, column)` slot, with `Align.L/C/R` as columns 0/1/2.
- PdfPagination.NumRounds: `(len / 12).__ceil__()` is float division, modelled as exact integer ceiling. The two agree for any realistic number of files.
- The `allow_unicode` branch and the NFKD normalisation of `slugify` need Unicode tables. The model starts from the ASCII string left after non-ASCII characters are dropped (`Slugify.Slugify` requires `IsAscii`).
- Dictionary insertion order of `tracks` is not modelled: `TracksById` is a map.
- Exceptions other than the two id errors are not modelled (for example a `KeyError` from a malformed API object or a `None` album). `Album.releaseDate` being `None` stands for a JSON `null` release date.
- Running Python with `-O` strips the id `assert`; the model assumes asserts are on.
- Progress messages, `__str__` methods, the CLI and error printing are output plumbing, so they are left out.
