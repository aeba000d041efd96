# Personal landing page: shuffle, subtitle rotation and render guards

The page loads a profile record (title, taglines called "subtitles", an
optional call to action, social links, payment addresses) and renders it.
Its only logic is in `src/App.tsx`:

- `shuffleArray` copies the subtitle list and shuffles the copy in place
  with the Fisher–Yates (Durstenfeld) loop. The loop runs `i` from the last
  index down to 1 and swaps slot `i` with a drawn slot `j` in `[0, i]`.
- A cursor (`currentSubtitle`) starts at 0. An interval moves it to
  `(prev + 1) % n` on each tick. No interval is set up for an empty list.
- The render shows a loading view until the record is in. It shows the
  subtitle at the cursor, as a link when that entry has a `link`. It shows
  the call-to-action button only when the record has a `cta`.

The model has four modules:

- `Profile` (`profile.dfy`) holds the record shapes as datatypes.
- `Shuffle` (`shuffle.dfy`) holds the shuffle. It is a method over an
  `array` whose loop is proved against the specification function
  `Shuffled`. The random draw is an oracle argument: `draws[i]` is the index
  drawn while the loop is at `i`. The permutation, reachability and
  injectivity lemmas are stated about `Shuffled`.
- `Rotation` (`rotation.dfy`) holds the cursor. It is a class with the
  fields `current` and `period`, where `period` is the list length the
  running interval wraps at. `Step` is the tick function. A lemma says that
  the cursor after `k` ticks is `k mod n`.
- `Render` (`render.dfy`) holds the render guards as functions. There is
  one render as the code is written and one with the cursor checked
  against the list; see "Findings".

Subtitle entries are records with `text` and an optional `link`, because
that is what `src/App.tsx:112-122` reads. `src/hooks/useData.ts:23`
declares `subtitles: string[]` and declares no `cta` at all. The model
follows the code that reads the record. JavaScript truthiness is modelled
where the code relies on it: an empty-string `link` is falsy, so that
entry renders as plain text.

## Model

| member | source | states |
|---|---|---|
| `Shuffle.Swap` | src/App.tsx:23 | The destructuring swap exchanges slots `i` and `j`; every other slot keeps its element; the length is kept. |
| `Shuffle.SwapPermutes` | src/App.tsx:23 | A swap keeps the multiset of elements. |
| `Shuffle.Draw` | src/App.tsx:22 | `floor(u * (i + 1))` for a sample `u` in `[0, 1)` is an index in `[0, i]`. This is the range the oracle is required to respect. |
| `Shuffle.DrawAll` | src/App.tsx:21-22 | Draws computed from in-range samples always form a valid oracle for the loop. |
| `Shuffle.Shuffled` | src/App.tsx:19-26 | The order the shuffle yields for the given draws has the input's length. Inputs of length 0 or 1 come back unchanged. |
| `Shuffle.ShuffledPermutes` | src/App.tsx:21-23 | For every valid sequence of draws, the result is a permutation of the input (multiset equality). |
| `Shuffle.ShuffleStep` | src/App.tsx:21-23 | One turn of the loop at `i` settles slot `i` for good. Only the prefix below `i` is left to shuffle. |
| `Shuffle.SwapInPlace` | src/App.tsx:23 | The in-place swap on the array leaves it equal to `Swap` of its previous contents. |
| `Shuffle.ShuffleArray` | src/App.tsx:19-26 | The method returns a fresh array equal to `Shuffled(input, draws)`, hence a permutation of the input of the same length. The input array is unchanged. Every index `i` and `j` the loop touches is in bounds. |
| `Shuffle.DrawsFor` | src/App.tsx:21-23 | For any rearrangement `t` of `s`, it builds valid draws for which the shuffle of `s` yields exactly `t`. |
| `Shuffle.EveryPermutationReachable` | src/App.tsx:21-23 | Every permutation of the input is produced by some valid sequence of draws. |
| `Shuffle.DrawsDetermineOrder` | src/App.tsx:21-23 | On an input without repeats, two valid draw sequences that give the same order agree on every draw the loop consults. |
| `Rotation.Step` | src/App.tsx:42 | One tick gives `(prev + 1) % n`. The result is always `< n`. From `prev < n` it is `prev + 1`, or 0 after the last entry. |
| `Rotation.CursorAfterIsMod` | src/App.tsx:31-42 | Starting at 0, after `k` ticks the cursor equals `k mod n`. |
| `Rotation.Cursor.constructor` | src/App.tsx:31 | The cursor starts at 0 with no interval running. |
| `Rotation.Cursor.Subscribe` | src/App.tsx:39-46 | When the list changes, the old interval is replaced by one that wraps at the new length, or by none for an empty list. The cursor is not reset. It stays in range exactly when the new list is empty or longer than the cursor. |
| `Rotation.Cursor.Tick` | src/App.tsx:41-43 | With an interval running, the cursor moves to `Step(prev, n)` and ends in range. With no interval, nothing changes. |
| `Rotation.MountAndRotate` | src/App.tsx:29-46 | Over one mount (an empty list while loading, then a list of `n` entries, then `k` ticks) the displayed cursor is `k mod n`. It stays 0 when `n == 0`. |
| `Render.ShuffledSubtitles` | src/App.tsx:34-37 | The memoised list is empty exactly when no record is loaded, the record has no `subtitles`, or the list is empty. Otherwise it is a permutation of the record's subtitles. |
| `Render.TaglineOf` | src/App.tsx:112-123 | An entry renders as a hyperlink to its `link` iff `link` is set and non-empty. Otherwise it renders as plain text. The shown text is always the entry's `text`. |
| `Render.CtaOf` | src/App.tsx:130-147 | The call-to-action button is produced iff the record has a `cta`. It links to `cta.url` and shows `cta.text`. |
| `Render.RenderAsWritten` | src/App.tsx:58-147 | The loading view appears iff `loading` is true or no record is loaded. Only then is the page reached. The page throws iff the cursor is not inside the shuffled list. Otherwise it shows the entry at the cursor. |
| `Render.EmptySubtitlesThrow` | src/App.tsx:34-112 | A loaded record with no or empty `subtitles` makes the render as written throw at the cursor lookup. |
| `Render.NoSubtitlesExample` | src/App.tsx:112 | A concrete record without `subtitles` on which the render as written throws. |
| `Render.Render` | src/App.tsx:58-147 | The guarded render never throws. The loading view appears iff still loading or no record is loaded. The page carries the title, the social links and `CtaOf`. The tagline is present iff the cursor is inside the list, and it is then the entry at the cursor. |
| `Render.RenderAgreesInRange` | src/App.tsx:58-147 | Wherever the render as written does not throw, the guarded render produces the same page. |
| `Render.RotatedPageShowsEntry` | src/App.tsx:34-123 | For a loaded, non-empty subtitle list, after any number `k` of ticks both renders agree. The page shows entry `k mod n` of the shuffled list. |

## Findings

| source | as written | input that shows it | evidently intended | confidence | as-written member | corrected member |
|---|---|---|---|---|---|---|
| src/App.tsx:112 | `shuffledSubtitles[currentSubtitle].link` is read with no check that the list has an entry at the cursor. | A loaded record whose `subtitles` is missing or `[]`. The list is then empty and the cursor is 0, so `.link` is read from `undefined` and a `TypeError` is thrown. | An empty subtitle list shows the page without a tagline. No out-of-range lookup happens. | not executed; high (the JavaScript semantics of reading a property of `undefined`) | `Render.EmptySubtitlesThrow` | `Render.Render` |

## Left out

- `src/hooks/useData.ts` (fetching `/data.yaml`, parsing YAML with `js-yaml`, and the `data`/`loading`/`error` state) is network I/O and a foreign library call. `loading` and `data` are inputs to the render functions. No validation of required fields is modelled because the code performs none: the parsed value is cast to the record type.
- Randomness: `Math.random` is replaced by the oracle `draws`. Claims about uniform probability are out of scope. Counting the `n!` valid draw sequences is out of scope too. The model proves only the bijection between draws and orders that uniformity rests on.
- `Shuffle.Draw`: uses real arithmetic. IEEE double rounding of `Math.random() * (i + 1)` is not modelled.
- Timers: the 3000 ms period of `setInterval`, the `clearInterval` cleanup, and the scheduling of `useMemo` and `useEffect`. Only the per-tick transition and the re-subscription on a list change are kept.
- `Rotation.Cursor.Subscribe`: states that a list change can leave the cursor out of range. The model does not claim this is reachable. The record changes only once per mount (from nothing to the loaded record), and the cursor is still 0 at that point.
- The clipboard copy and the payment-address section are commented out in the source. They are dead code and are not modelled.
- The JSX markup, framer-motion animation, tooltips, images, the profile picture and the footer are presentation only. Only the guards above decide anything in them.
- A light/dark theme toggle and its stored preference do not appear in `src/App.tsx`, so they are not modelled.
