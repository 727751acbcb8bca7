# Gallery prefetching cache

A Dafny model of the image browser in `experimental/gallery.py` of galry. It
shows the pictures of a folder one at a time and keeps a cache of decoded
images around the current one. The model covers two parts:

- **Navigator** holds a position `i` in a collection of `n` items, the last
  movement direction `dir` and a look-ahead depth `steps`. `set`, `next` and
  `previous` move the position; `next` and `previous` stop at the ends and
  never wrap. `indices()` gives the window to keep resident: the current
  position, then up to `steps` positions ahead, then up to `steps` positions
  behind, clipped to `[0, n)`.
- **PictureViewer** holds a dictionary from position to image, where `None`
  means "load requested, not finished". `set_index` moves the navigator,
  marks every window position that is not yet a key as pending, and sends
  one load request for each such position to the loader. The completion
  handler `Loader.load_done` stores the loaded image under its position.

Modules:

- `WindowPolicy` (`window.dfy`) holds the window as pure functions over
  `seq<int>`. This covers Python's `range`, the two runs, and the window
  `indices()` returns. It also proves that window's properties.
- `Navigation` (`navigator.dfy`) holds the class `Navigator`. Its methods
  update `i` and `dir` in place.
- `Gallery` (`viewer.dfy`) holds the cache as a class `PictureViewer` whose
  `cache` field is a `map<int, Option<P>>`. The payload type `P` is opaque.
  The loader is a class `Loader` that appends each `load` call to a log of
  `Request(index, file)` values. A completion is a separate call of
  `LoadDone`, which stands for `load_done`.

The object invariant `Consistent()` holds across every operation. It says:

- every position is requested at most once;
- every request uses that position's file;
- every requested position is a key of the cache.

`Valid()` adds that the whole current window is cached.

### Where the code and its evident intent differ

The model follows the code in each case below.

- **Direction test.** The test `dir >= 0` in `indices()`
  (`experimental/gallery.py:62`) names Python's builtin function `dir`, not
  the field `self.dir`.
  - Under Python 2's ordering, every number sorts below every object other
    than `None`, the builtin function `dir` among them, so the test always
    holds and the window is always ahead-first.
  - `Tested`/`AtLeastZero` model the test, and `SourceWindow` is the window
    the code returns.
  - `BiasedWindow` is the behind-first order that the field `self.dir` was
    evidently meant to select after a backward move. It is proved to be a rearrangement of the same positions.
  - `BackwardOrderDiffers` proves that the two orders differ whenever there
    are positions on both sides.
- **The direction is already reset.** Even a corrected test would change
  nothing in the viewer. `set_index` calls `set`, which resets `dir` to 0
  before `indices()` runs. `PictureViewer.SetIndex` states that its window
  equals the biased window for the navigator's own recorded direction.
- **No clamping.** `set(i)` does not clamp: any integer becomes the position.
  `Navigator.Set` states that the navigator stays valid exactly when the
  argument lies in `[0, n)`. `SetIndex` requires that range because every
  caller passes a position in it: the constructor passes 0, and `next` and
  `previous` pass `nav.current()`, which stays in range.
- **Empty collection.** The code does not handle it: building a viewer over
  no files reaches `self.files[0]` in `set_index(0)`. The viewer's
  constructor therefore requires at least one file; there are no no-op
  semantics for `n = 0`.

## Model

| member | source | states |
|---|---|---|
| `WindowPolicy.Range` | experimental/gallery.py:59-60 | `range(lo, hi)` has `max(0, hi - lo)` elements; the k-th is `lo + k`; it holds exactly the integers in `[lo, hi)` |
| `WindowPolicy.Before` | experimental/gallery.py:59 | `before` holds exactly the positions in `[max(0, i-steps), i)`, ascending, at most `steps` of them |
| `WindowPolicy.After` | experimental/gallery.py:60 | `after` holds exactly the positions in `(i, min(n-1, i+steps)]`, ascending, at most `steps` of them |
| `WindowPolicy.AtLeastZero` | experimental/gallery.py:62 | Python 2's `x >= 0` on the tested value (`Tested` is a number or the builtin function): a builtin function always passes; a number passes exactly when it is not negative |
| `WindowPolicy.Indices` | experimental/gallery.py:57-65 | the body of `indices()` with the tested value explicit: no duplicates; exactly `i`, the positions in `[max(0, i-steps), i)` and those in `(i, min(n-1, i+steps)]`; `i` first, then two ascending runs, ahead first exactly when the test passes |
| `WindowPolicy.SourceWindow` | experimental/gallery.py:57-63 | for `0 <= i < n`: the window starts at `i` and has no duplicates; it holds exactly `i` and the positions in `[max(0, i-steps), min(n-1, i+steps)]`, so only positions in `[0, n)`; its length is `min(n-1, i+steps) - max(0, i-steps) + 1 <= 2*steps + 1`; ahead positions come first, then behind positions, each run ascending |
| `WindowPolicy.BiasedWindow` | experimental/gallery.py:62-65 | if the test read the recorded direction `d`: for `d >= 0` the window equals the code's; for `d < 0` the behind positions come first; in every case it starts at `i` and has no duplicates |
| `WindowPolicy.BiasedWindowRearranges` | experimental/gallery.py:62-65 | whatever the direction, the biased window holds the same multiset of positions as the code's window, so the test affects only the order of requests |
| `WindowPolicy.BackwardOrderDiffers` | experimental/gallery.py:62-65 | with positions on both sides and `d < 0`, the code's window has `i + 1` second while the biased window has a position behind `i` second, so the two differ |
| `WindowPolicy.WindowAtStart` | experimental/gallery.py:57-63 | `n = 5, steps = 2, i = 0` gives `[0, 1, 2]` |
| `WindowPolicy.WindowInMiddle` | experimental/gallery.py:57-63 | `n = 5, steps = 2, i = 2` gives `[2, 3, 4, 0, 1]`, whatever the recorded direction |
| `WindowPolicy.BiasedWindowBackward` | experimental/gallery.py:64-65 | the behind-first branch for `n = 5, steps = 2, i = 2` would give `[2, 0, 1, 3, 4]` |
| `Navigation.Navigator.constructor` | experimental/gallery.py:34-38 | starts at position 0 with direction 0; it is valid exactly when `n >= 1` |
| `Navigation.Navigator.Set` | experimental/gallery.py:40-42 | the position becomes `j` and the direction 0, with no clamping; the navigator is valid afterwards exactly when `0 <= j < n` |
| `Navigation.Navigator.Next` | experimental/gallery.py:44-47 | the position rises by 1 only when `i < n-1` and is otherwise unchanged (no wrap); the direction becomes 1; validity is preserved |
| `Navigation.Navigator.Previous` | experimental/gallery.py:49-52 | the position falls by 1 only when `i > 0` and stays 0 at the start; the direction becomes -1; validity is preserved |
| `Navigation.Navigator.Current` | experimental/gallery.py:54-55 | returns the position, which lies in `[0, n)` when the navigator is valid |
| `Navigation.Navigator.Indices` | experimental/gallery.py:57-65 | for a valid navigator: `i` first, then the positions ahead, then those behind, each run ascending, all in `[0, n)`, none twice; equal to the order a direction of 0 would select, whatever `dir` holds |
| `Navigation.Navigator.BackwardDirectionIgnored` | experimental/gallery.py:62-65 | after a backward move with positions on both sides, the window still has `i + 1` right after `i`, so it differs from the behind-first order the recorded direction would select |
| `Gallery.Paths` | experimental/gallery.py:90-91 | the requested positions are exactly the window positions that are not cache keys; each request carries that position's file; a window without duplicates yields requests without duplicates |
| `Gallery.PathsAppend` | experimental/gallery.py:90-91 | requests follow window order: those for `a + b` are those for `a` followed by those for `b` |
| `Gallery.MarkPending` | experimental/gallery.py:93-95 | after tagging, the keys are the old keys plus the window positions; existing entries keep their values; new entries hold the pending `None` |
| `Gallery.MarkPendingStep` | experimental/gallery.py:93-95 | tagging one more position inserts `None` only if that position is not already a key |
| `Gallery.NewRequestsKeepOnce` | experimental/gallery.py:90-96 | appending requests for positions that were not keys keeps every position requested at most once |
| `Gallery.DispatchBound` | experimental/gallery.py:90-96 | requests without repeated positions, all of them keys of a set, number no more than that set's elements |
| `Gallery.Loader.Load` | experimental/gallery.py:96 | each `loader.load(j, path)` call appends `(j, path)` to the request log |
| `Gallery.PictureViewer.constructor` | experimental/gallery.py:79-85 | with at least one file: the cache starts empty, `steps` is 2, and `set_index(0)` runs; the result is a valid viewer whose cache is the tagged start window and whose log holds one request per position of that window |
| `Gallery.PictureViewer.SetIndex` | experimental/gallery.py:87-96 | the navigator moves to `j` and its direction is 0; the cache becomes the old cache with the window tagged, so keys only grow and old entries are untouched; the log grows by exactly one request per window position that was not a key, in window order; every position is still requested at most once, and the whole window is cached |
| `Gallery.PictureViewer.Tag` | experimental/gallery.py:93-95 | the loop tags every window position that is not a key as pending, and changes nothing else in the cache |
| `Gallery.PictureViewer.Dispatch` | experimental/gallery.py:96 | the loop sends the requests to the loader one by one, in order |
| `Gallery.PictureViewer.Next` | experimental/gallery.py:98-100 | one step forward without wrapping, then `SetIndex` at the new position, so the direction is back to 0 |
| `Gallery.PictureViewer.Previous` | experimental/gallery.py:102-104 | one step back without going below 0, then `SetIndex` at the new position, so the direction is back to 0 |
| `Gallery.PictureViewer.Current` | experimental/gallery.py:106-107 | holds a payload exactly when the current position is a key whose entry is loaded; equals `Get` at the current position |
| `Gallery.PictureViewer.Get` | experimental/gallery.py:109-111 | returns the stored payload when one is loaded for the key; returns `None` when the key is absent or still pending |
| `Gallery.PictureViewer.SetItem` | experimental/gallery.py:117-118 | overwrites the one entry and leaves every other entry, the navigator and the request log unchanged; the invariant is kept |
| `Gallery.PictureViewer.LoadDone` | experimental/gallery.py:29-30 | stores the result under its position, whether or not that position is still in the window; every other entry and the request log are unchanged |
| `Gallery.PictureViewer.RequestsBounded` | experimental/gallery.py:87-96 | in any consistent state, the number of load requests sent so far is at most the number of cache keys |

## Left out

- Decoding and thumbnailing an image (`load` and the body of `Loader.load`, `experimental/gallery.py:11-15, 23-26`) are foreign library calls. A payload is an opaque type parameter, and the log message printed in `Loader.load` is not modelled.
- `get_aspect_ratio` (floating-point division over array shapes) is not modelled.
- The loader's separate process (`inprocess(Loader)`, `pw.loader.join()`) is not modelled. A request is an entry appended to `Loader.requests`. A completion is a call of `LoadDone`. Any interleaving of completions is just an order of those calls; real asynchrony, locking and process start-up are not modelled.
- The constructor does not read `sys.argv` or `os.listdir`, filter `.jpg` names, or sort them. It takes the list of files directly, and each entry is already the joined path that `os.path.join(self.folder, ...)` would build, so `folder` is not modelled.
- The GUI code is not modelled: `show_image`, the key handlers `next` and `previous`, `anim` with its global `CURRENT_IMAGE` and array comparisons, the `EMPTY` placeholder, and the `__main__` block.
- `LoadDone` writes the viewer's own cache. In the code, `load_done` writes the module-level `CACHE`, which the `__main__` block binds to `pw.cache`.
- `galry/visuals/text_visual.py` and `tutorials/tut03_points.py` are not modelled; they are rendering and a plotting demo.
- Negative positions are not modelled. `set_index(j)` with `-n <= j < 0` would run without error in Python: negative indexing fetches `files[j]`, and the window and cache would hold negative keys. No caller in the code passes such a position, and `SetIndex` requires `0 <= j < n`.
- `LoadDone(key, result)` drops `load_done`'s unused `path` argument and the `None` defaults of its three parameters (`experimental/gallery.py:29`).
