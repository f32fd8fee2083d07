# Slide player model

A Dafny model of the slide player in `main.js`, with the player's promises proved about it. The player:

- finds the slide descriptors `static/slides/slide_01.json`, `slide_02.json`, … in order;
- turns each descriptor's raw items into a slide with a background, photo variants and static layers;
- stacks the visible layers of the current slide by their `index`;
- lets the arrow keys move between slides (left and right) and between the photo variants of a slide (up and down), with a HUD and a status line that report the position.

The modules follow the program's parts:

- `Items` (`items.dfy`): descriptor items and the roles their names give them (`/^photo\d+$/i`, `/^text\d+$/i`). It also holds `pad` and `parseIndex`. `parseIndex` follows JavaScript's `parseInt(…, 10)`: skip leading white space, take an optional sign, then the longest run of digits, and ignore what follows.
- `Sorting` (`sorting.dfy`): `Array.prototype.sort` with a key comparator, which is a stable sort. It is given as a function (`SortBy`) and proved ascending, a permutation, stable, and the only arrangement with those three properties. An in-place insertion sort on an array (`SortInPlace`) is proved to compute that function. `Filter` models `Array.prototype.filter`.
- `SlideBuilder` (`slide_builder.dfy`): `buildSlide`.
- `Renderer` (`renderer.dfy`): the composite list of `renderSlide` and the bitmap guard of `createLayer`. `RenderComposite` builds the list, sorts it in place in an array and creates the elements.
- `Discovery` (`discovery.dfy`): the probe loop of `discoverSlides`. The network is a map from path to outcome: the descriptor's items, a response that is not `ok`, or a thrown error. A path missing from the map answers "not ok".
- `Navigation` (`navigation.dfy`):
  - `goToSlide`, `changePhoto`, `updateHud` and `handleKey` as pure steps on a position `(currentSlide, currentPhoto)`.
  - The class `Player`, holding `slides`, `currentSlide` and `currentPhoto`. Its methods update those fields and are proved to take exactly those steps. They return the status line and whether the stage is re-rendered, instead of writing to the page.

Some ways the code differs from what a reader might expect; the model follows the code:

- The coordinate basis is not forced to be positive. A background bbox `[10, 0, 0, 0]` gives a width of `-10`; see `SlideBuilder.BuildSlide`.
- Not every item with a bitmap lands in exactly one list. A second `bg` item with a bitmap is neither the background nor a static layer; see `SlideBuilder.Classification`.
- The `!slides.length` branch of `start` (main.js:256-259) cannot be reached. `discoverSlides` either throws or returns at least one slide (`Discovery.DiscoverSlides`), so `Navigation.Player.Start` has no such branch.

## Model

| member | source | states |
|---|---|---|
| `Items.NamePatternsDisjoint` | main.js:59-74 | No name matches both the photo pattern and the text pattern, and neither `bg` nor `slide_title` matches either, so the role tests of `buildSlide` never overlap by name |
| `Items.DecimalRoundTrip` | main.js:17-19 | `String(n)` of a non-negative integer is a digit string that reads back as `n` |
| `Items.DecimalNoLeadingZero` | main.js:17-19 | `String(n)` starts with `0` exactly when `n` is 0 |
| `Items.Decimal` | main.js:17-19 | `String(n)` of a non-negative integer is a non-empty digit string, one character long iff `n < 10` |
| `Items.Pad` | main.js:17-19 | `pad(n)` is a digit string denoting `n`, and it is exactly two characters long iff `n < 100` |
| `Items.PadInjective` | main.js:17-19 | Distinct numbers give distinct padded ids |
| `Items.ParseInteger` | main.js:21-24 | A numeric index parses to itself; a missing index is NaN |
| `Items.ParseIndex` | main.js:21-24 | A numeric index is its own value, and a missing index (NaN) falls back to 0 |
| `Items.ParseDigits` | main.js:21-24 | Text made of blanks, an optional minus sign, a digit run, then anything not starting with a digit parses to the signed value of the run |
| `Items.NoNumberNoIndex` | main.js:21-24 | Text with no digit after its leading blanks and optional sign (`"abc"`, `"+"`, `"px3"`) does not parse, so the index falls back to 0 |
| `Items.ParseIndexRoundTrip` | main.js:21-24 | An index written as signed decimal text parses back to its value, also with leading white space or a non-digit tail (`"3px"` is 3). A numeric index is its own value. A missing index, `""` and `"-"` give the fallback 0 |
| `Sorting.Filter` | main.js:66-74 | `filter` keeps only elements satisfying the predicate and never grows the list |
| `Sorting.FilterMembers` | main.js:66-74 | An element is in the filtered list iff it is in the input and satisfies the predicate |
| `Sorting.FilterAppend` | main.js:66-74 | Filtering a concatenation is the concatenation of the filtered parts |
| `Sorting.FilterMultiset` | main.js:139-141 | Filtering keeps every copy of each satisfying element and drops every copy of the others |
| `Sorting.FilterKeepsSorted` | main.js:139-141 | Dropping elements from a list sorted by a key leaves it sorted |
| `Sorting.KeyClassOfFilter` | main.js:139-141 | Filtering keeps the relative order of the elements with any one key |
| `Sorting.KeyClassAppend` | main.js:76-78 | The elements of a concatenation with key `k` are those of the first part followed by those of the second |
| `Sorting.SortBy` | main.js:132-133 | The comparator sort keeps the input's length |
| `Sorting.SortByCorrect` | main.js:132-133 | The comparator sort has the input's length, is ascending by the key, is a permutation of the input, and keeps elements with equal keys in input order (stable) |
| `Sorting.SortByUnique` | main.js:132-133 | Any list that is ascending by the key and holds each key's elements in input order is exactly the sorted list, so the stable sort's result is fully determined |
| `Sorting.SortedClassesDetermine` | main.js:132-133 | Two lists sorted by the same key with the same elements per key, in the same order, are equal |
| `Sorting.InsertAt` | main.js:132-133 | One insertion step: the prefix up to `i` becomes the insertion of `a[i]` into the sorted prefix, and the rest of the array is untouched |
| `Sorting.SortByStep` | main.js:132-133 | Sorting a list one element longer inserts that element into the sorted shorter list, the step an insertion sort takes |
| `Sorting.InsertionRound` | main.js:132-133 | One round of the insertion sort extends the sorted prefix of the array by one element and leaves the rest as it was |
| `Sorting.SortInPlace` | main.js:132-133 | Sorting the array in place leaves it holding exactly the stable sort of its old contents |
| `SlideBuilder.FindBackground` | main.js:45-47 | `find` returns nothing iff no item is named `bg` with a bitmap, and otherwise the first such item |
| `SlideBuilder.PhotoItems` | main.js:58-64 | `photoItems` is a permutation of the photo-named items and ascending by the number in the name |
| `SlideBuilder.TextItems` | main.js:66-68 | `textItems` holds exactly the items named `textN` (any case) or `slide_title` |
| `SlideBuilder.StaticOverlays` | main.js:70-74 | `staticOverlays` holds exactly the items with a bitmap that are not named `bg` and have no photo or text name |
| `SlideBuilder.BuildSlide` | main.js:44-88 | The slide keeps the given id and the first background. Its basis is the background bbox's width and height when the bbox has four numbers, and 4000 by 2250 otherwise |
| `SlideBuilder.PhotoNumberIsSuffix` | main.js:61-62 | For a photo item, the sort key (its name's digits read as a number) is the number after `photo` |
| `SlideBuilder.PhotosCorrect` | main.js:58-64 | `photos` holds exactly the photo-named items, with or without a bitmap, as a permutation. It is ascending by the number in the name, with equal numbers in descriptor order |
| `SlideBuilder.PhotoOrderExample` | main.js:58-64 | The order is numeric: `photo1, photo10, photo2` become `photo1, photo2, photo10` |
| `SlideBuilder.StaticMembership` | main.js:66-78 | An item is a static layer iff it is a text item (with or without a bitmap) or an overlay with a bitmap |
| `SlideBuilder.StaticOrder` | main.js:76-78 | The static layers are a permutation of texts followed by overlays, ascending by `parseIndex(index)`. On equal indices, texts come before overlays, each in descriptor order |
| `SlideBuilder.RolesExclusive` | main.js:45-74 | An item has at most one of the roles background, photo, text and overlay |
| `SlideBuilder.BuildSlideDisjoint` | main.js:44-88 | A built slide's parts carry their roles. No item is both a photo and a static layer. No static layer is named `bg`. The background is in neither list |
| `SlideBuilder.Classification` | main.js:44-88 | Every item with a bitmap and not named `bg` lands in exactly one of the two lists. A photo name lands in `photos` and a text name in the static layers. A `bg` item lands in neither list. An item with no bitmap and no photo or text name lands nowhere |
| `SlideBuilder.SingleBackgroundScenario` | main.js:49-56 | A descriptor holding only a `bg` item with bbox `[0, 0, 1000, 500]` gives a 1000 by 500 slide with that background and no other layers |
| `Renderer.CreateLayer` | main.js:90-110 | An element is created iff the item has a (non-empty) bitmap; it shows that item at z-index `parseIndex(index)` |
| `Renderer.SelectedPhoto` | main.js:125 | The photo at the current position, the first photo when that position holds none, and nothing iff the slide has no photos |
| `Renderer.AltText` | main.js:97 | The alt text is never empty: the human name when there is one, else the name when there is one, else `layer` |
| `Renderer.Composite` | main.js:120-130 | The composite has one item per static layer, plus one for a background and one for a selected photo, and ends with the static layers in slide order |
| `Renderer.Layers` | main.js:134-141 | Creating elements never adds any; each element comes from an item with a bitmap and stands at that item's `parseIndex(index)` |
| `Renderer.Rendered` | main.js:120-142 | The stage stack never holds more elements than the composite has items |
| `Renderer.RenderComposite` | main.js:120-142 | The elements appended to the stage are those of the background, the selected photo and the static layers, stably sorted by `parseIndex(index)`, with the items without a bitmap skipped |
| `Renderer.CollectComposite` | main.js:120-130 | The pushes leave `composite` holding the background (if any), then the selected photo (if any), then every static layer |
| `Renderer.AppendElements` | main.js:132-142 | The `forEach` appends one element per item with a bitmap, in list order |
| `Renderer.LayersKeepBitmapItems` | main.js:134-141 | Creating elements keeps exactly the items with a bitmap, in order, each at its own index |
| `Renderer.RenderedOrder` | main.js:132-142 | The stage stack is ascending by z-index, is a permutation of the composite's items with a bitmap, and keeps composite order among equal indices |
| `Renderer.RenderedAscending` | main.js:132-142 | The stage stack is ascending by z-index |
| `Renderer.RenderedPermutation` | main.js:132-142 | The stage stack holds the composite's items with a bitmap, each as often as in the composite |
| `Renderer.RenderedStable` | main.js:132-142 | Among equal z-indices, the stage stack keeps the items with a bitmap in composite order |
| `Renderer.RenderedMembership` | main.js:120-142 | An item is drawn iff it has a bitmap and is the background, the selected photo or a static layer |
| `Renderer.CompositeMembers` | main.js:120-130 | The composite holds exactly the background, the selected photo and the static layers |
| `Renderer.OnePhotoInComposite` | main.js:125-130 | On a built slide, the photo items in the composite are exactly the selected photo, so at most one photo variant is drawn |
| `Discovery.DiscoverSlides` | main.js:201-228 | Discovery fails iff the first probe fails, with the not-found message or the thrown error. Otherwise it returns 1 to 99 slides: slide j is built from probe j's items under id `pad(j)`. It stops at the first probe that fails or after 99 |
| `Discovery.LeadingRunExtend` | main.js:217-218 | Appending the slide built from the next successful probe keeps the discovered list in step with the probes |
| `Discovery.DiscoveredIds` | main.js:204-206 | Discovered slides have the two-digit ids `01`, `02`, … in order, so no two share one |
| `Discovery.SingleDescriptorScenario` | main.js:201-228 | A deck of one descriptor holding only a `bg` item with bbox `[0, 0, 1000, 500]` is discovered as one 1000 by 500 slide with id `01` |
| `Navigation.GoTo` | main.js:165-179 | With no slides nothing happens. A target outside the deck reports the edge and does not move. Otherwise the player moves to the target slide's first photo and re-renders |
| `Navigation.GoToKeepsValid` | main.js:165-179 | `goToSlide` keeps the position on an existing slide and photo, and a move to another slide starts at its first photo |
| `Navigation.GoToReportsSlide` | main.js:178 | The status after a move names the new slide counting from 1 |
| `Navigation.NextThenPrevious` | main.js:165-179 | One slide forward then back returns to the slide left, on its first photo. At the last slide the forward move reports the edge, and repeating it changes nothing |
| `Navigation.PhotoStep` | main.js:181-199 | `changePhoto` stays on the slide and always sets a status. It re-renders exactly when the position changes, and on a slide without photos it says so and changes nothing |
| `Navigation.ChangePhotoClamps` | main.js:181-199 | `changePhoto` stays on the slide and moves to `min(T - 1, max(0, photo + delta))`. It re-renders exactly when the photo changes and keeps the position valid. On a slide without photos it changes nothing and says so |
| `Navigation.ChangePhotoReportsPhoto` | main.js:196-198 | After a photo move the status reads "Photo N of T." with N the new photo counting from 1 and T the slide's photo count |
| `Navigation.ChangePhotoIdempotentAtBoundary` | main.js:190-193 | Once a move reaches the last (first) photo, every further move in the same direction keeps the position and reports "Already at last (first) photo." |
| `Navigation.NextPhotoThenPrevious` | main.js:181-199 | Away from the last photo, one photo forward then back returns to the same position, and the forward move re-renders |
| `Navigation.HudLabels` | main.js:147-163 | With no slides the HUD shows "Slide 0/0" and "Photo 0/0". The photo label says "No photos on this slide" exactly when slides are loaded and the current one has no photos |
| `Navigation.HudShowsPosition` | main.js:147-163 | On a valid position the photo label shows the current photo itself (the `Math.min` never clips), or "No photos on this slide". After a move to a slide it shows its first photo |
| `Navigation.HudReportsSlide` | main.js:154-155 | With slides loaded, the slide label reads "Slide N/M" with N the current slide counting from 1 and M the number of slides |
| `Navigation.HudPhotoLabel` | main.js:157-162 | On a valid position the photo label counts the current photo itself, the `Math.min` never clipping |
| `Navigation.HudAfterMove` | main.js:147-179 | After a move to a slide the photo label shows its first photo, or says it has none |
| `Navigation.KeyRoundTrip` | main.js:230-249 | Exactly the four arrow keys are commands, one command each |
| `Navigation.KeyCommand` | main.js:235-248 | A key is a command only if it is that command's arrow key |
| `Navigation.Apply` | main.js:235-248 | Right moves to the next slide and left to the previous one, each on its first photo, when that slide exists; down moves to the next photo and up to the previous one, when that photo exists. Up and down stay on the slide; left and right either change nothing or land on a first photo |
| `Navigation.Player.constructor` | main.js:10-12 | The player starts with no slides, on slide 0 and photo 0 |
| `Navigation.Player.RenderSlide` | main.js:112-145 | With no slides nothing is drawn. Otherwise the stage shows the rendered stack of the current slide and photo, and the HUD shows the position. The player's fields are left as they were |
| `Navigation.Player.GoToSlide` | main.js:165-179 | The new position, status and re-render are those of the `goToSlide` step. The player stays valid and its slides are unchanged |
| `Navigation.Player.ChangePhoto` | main.js:181-199 | The new position, status and re-render are those of the `changePhoto` step. The player stays valid and its slides are unchanged |
| `Navigation.Player.HandleKey` | main.js:230-249 | The browser default is prevented iff slides are loaded and the key is an arrow key. That key then takes its command's step (`Navigation.Apply`): right and left go to the next and previous slide, down and up to the next and previous photo. Any other key changes nothing |
| `Navigation.Player.Start` | main.js:251-268 | A failed discovery shows its error message, or "Unable to load slides." when that is empty, and loads nothing. Otherwise the whole leading run of descriptors is loaded (1 to 99 slides, stopping only at the first failed probe or at 99), slide 1 photo 1 is rendered with its HUD labels, and the ready message is shown. The status line is not written on failure, nor the error box on success |

## Left out

- The page itself is not modelled: stage clearing, `img` elements, class names, `hideLoading` and the `keydown` registration (main.js:3-8, 38-42, 95-96, 118, 270-271). Status lines, errors, HUD labels and elements are returned as values instead.
- The percentage geometry of `createLayer` and `percent` (main.js:26-28, 100-106) is floating point. A layer only records whether it received a box.
- `fetch`, `response.json()` and the `async` flow are not modelled; each probe's outcome is an input. A body that fails to parse is a thrown error with its message, like a network failure. Keys pressed while `start` is still waiting are not modelled: `Start` is one atomic step.
- Numbers are unbounded integers, so bbox coordinates are integers. Also out of the model, all because JavaScript numbers are floating point:
  - photo numbers too large for a double to hold exactly;
  - `parseInt` of a non-integral or exponent-form number (`2.5`, `1e21`);
  - digit runs so long that `parseInt` gives `Infinity` (which `parseIndex` turns into 0).
- Fields of unexpected JSON types are not modelled: a non-string `human_name` or a non-array `bbox`. A body that is not an array, or whose item list holds a `null` entry, makes `buildSlide` throw at main.js:45-47 or main.js:59; the `catch` of main.js:219-224 treats that like a failed fetch, which `Discovery.FetchOutcome`'s `Failed` case covers. So the `!item` half of main.js:91 is never reached. A missing `human_name` or `name` is the empty string, which every test treats the same way.
- Items.ParseInteger: its contract covers numeric and missing indices; `Items.ParseDigits` and `Items.ParseIndexRoundTrip` state how signed decimal text with an optional minus sign is read; a leading `+` and text with no leading number other than `""` and `"-"` are modelled but not stated by a lemma.
- Navigation.GoTo: its contract does not spell out the success message; `Navigation.GoToReportsSlide` states it.
- Renderer.Rendered: its contract only bounds the length; `Renderer.RenderedOrder` and `Renderer.RenderedMembership` state its order and contents.
- Sorting.SortBy: its contract only keeps the length; `Sorting.SortByCorrect` and `Sorting.SortByUnique` state the rest.
