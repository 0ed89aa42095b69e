# ramme-ui core, modelled in Dafny

This project models the core of the ramme-ui component library and proves properties about it.

- **The manifest generator** (`scripts/generate-manifest.js`). It walks the source tree and finds the `@wizard` documentation comments. It turns each one into an entry: name, id, description, tags, category, props, import path. It versions each entry against the persisted history by fingerprint. It sorts the entries into five buckets and lists the renderable ones in a registry, de-duplicated by id.
- **Six React components**, each reduced to the state logic it runs:
  - Pagination's page list and its previous/next buttons.
  - FormTemplate's form data.
  - Accordion's open item and each item's controlled or uncontrolled toggle.
  - ToastProvider's toast list.
  - ComboBox's filter, open flag and controlled-value sync.
  - Avatar's initials and its choice between the picture and the initials.

Modules, one per file:

| module | file | models |
|---|---|---|
| `Text` | text.dfy | JavaScript string operations the sources use: `split` on one character, `trim`, `startsWith`, `endsWith`, `indexOf`, `includes`, ASCII `toLowerCase`/`toUpperCase` |
| `JsObjects` | objects.dfy | plain JavaScript objects: the names inherited from `Object.prototype`, and the own keys and key order that `obj[key] = value` leaves |
| `FileWalker` | walker.dfy | `getSourceFiles` |
| `Comments` | comments.dfy | the `/\/\*\*([\s\S]*?)\*\//g` scan over a file |
| `Annotations` | annotations.dfy | the tag switch: id slug, tags, category, props, import path |
| `Versioning` | versioning.dfy | `bumpVersion`, the history and its reconciliation |
| `ManifestGenerator` | manifest.dfy | `parseJsDoc`'s loop, `buildManifest`'s buckets and registry |
| `Pagination` | pagination.dfy | `getPageNumbers`, previous/next |
| `FormTemplate` | form_template.dfy | initial data, `handleFieldChange`, `handleSubmit`, radio checked |
| `AccordionLayout` | accordion.dfy | `Accordion` and `AccordionItem` toggling |
| `Toasts` | toasts.dfy | `addToast`, `dismissToast` |
| `ComboBoxForm` | combobox.dfy | the filter effect, the value sync, the handlers |
| `AvatarInitials` | avatar.dfy | `getInitials`, the picture/initials choice |

The source's form decides the model's form:

- **Loops** that build values become methods with loops and invariants:
  - `GetSourceFiles`, `ParseJsDoc`/`ParseBlocks`, `BuildEntry`, `BuildManifest`/`TallyFiles`/`TallyEntries`.
  - `GetPageNumbers`/`PushRange`, `InitialState`.

  Each is proved equal to a specification function. The properties are proved on that function.
- **State a component updates** becomes a class:
  - `Form`.
  - `Accordion` and `AccordionItem`.
  - `ToastProvider`.
  - `ComboBox`.
  - `History` (the persisted component history).

  Their methods state the whole new state in terms of those functions.

**Three behaviours of the code worth knowing:**

- **Empty prop object kept.** A props paragraph with no usable `key: value` line still yields an empty prop object `{}`, because `{}` is truthy and survives `filter(Boolean)` (generate-manifest.js:134-135). See `Annotations.UnusablePieceKept`.
- **Registry filter.** The registry filter names `iot`, `ai` and `blocks` (generate-manifest.js:207). No category maps to those names, so only entries in the `components` and `layouts` buckets can be listed. See `ManifestGenerator.BucketDecidesRenderable`.
- **Objects, not dictionaries.** Props, the component history and the form data are plain JavaScript objects. An array-index key such as `1` is listed before the other keys, `obj['__proto__'] = 'x'` adds no key, and a lookup of a name such as `constructor` that is not an own key finds the property inherited from `Object.prototype`. `JsObjects` models the first two for props and the form's initial data. The third is modelled for the category table and the history lookup, where it matters (see "## Findings").

## Model

| member | source | states |
|---|---|---|
| FileWalker.GetSourceFiles | scripts/generate-manifest.js:45-59 | the loop returns exactly `SourceFiles(dir, items)`: each entry in listing order, directories recursed, files filtered by name |
| FileWalker.SourceFiles | scripts/generate-manifest.js:45-59 | the walk's result, by recursion over the listing; `WalkIsFilteredListing` states what it is |
| FileWalker.IsSourceName | scripts/generate-manifest.js:52-53 | a `.tsx` or `.ts` name that is not `.test.tsx` or `.stories.tsx`; `TsKept`, `TsxKept`, `TestsAndStoriesDropped` and `OtherExtensionsDropped` state its cases |
| FileWalker.WalkIsFilteredListing | scripts/generate-manifest.js:48-56 | the walk is the depth-first listing of every file, in order, with exactly the files whose names pass the filter kept |
| FileWalker.ItemWalkIsFilteredListing | scripts/generate-manifest.js:50-56 | the same for one listing entry, file or directory |
| FileWalker.KeepSourcesAppend | scripts/generate-manifest.js:51 | the filter distributes over the concatenation of listings, so order is kept |
| FileWalker.TsKept | scripts/generate-manifest.js:52-53 | every `.ts` name passes, test and story files written as `.ts` included |
| FileWalker.TestsAndStoriesDropped | scripts/generate-manifest.js:53 | `.test.tsx` and `.stories.tsx` names are dropped |
| FileWalker.TsxKept | scripts/generate-manifest.js:52-53 | any other `.tsx` name passes |
| FileWalker.OtherExtensionsDropped | scripts/generate-manifest.js:52 | a name not ending in `s` or `x` is dropped |
| Comments.Blocks | scripts/generate-manifest.js:78-83 | every captured block is free of the closer `*/` |
| Comments.BlocksOfLayout | scripts/generate-manifest.js:78-83 | text laid out as prefix, `/**`, body, `*/`, rest yields the body and then the blocks of the rest: one block per comment, in file order, each ending at the first closer |
| Comments.NoOpenerNoBlocks | scripts/generate-manifest.js:82 | text without `/**` yields no block |
| Comments.FirstOpener | scripts/generate-manifest.js:78 | the scan finds the first opener |
| Comments.FirstCloser | scripts/generate-manifest.js:78 | the non-greedy body stops at the first closer |
| Annotations.HyphenateCase | scripts/generate-manifest.js:106 | no lower-to-upper boundary is left, and the first character is kept |
| Annotations.CollapseSeps | scripts/generate-manifest.js:107 | no white space or underscore is left |
| Annotations.Slug | scripts/generate-manifest.js:105-108 | an id has no upper-case letter, white space or underscore |
| Annotations.SlugIdempotent | scripts/generate-manifest.js:105-108 | the id of an id is itself |
| Annotations.HyphenateAppend | scripts/generate-manifest.js:106 | hyphenating a concatenation hyphenates each part and puts a hyphen at the seam exactly on a lower-to-upper boundary |
| Annotations.SlugOfWord | scripts/generate-manifest.js:105-108 | a capitalised word becomes its lower case |
| Annotations.SlugOfCamel | scripts/generate-manifest.js:105-108 | a word followed by a capital gets a hyphen (`DeviceCard` to `device-card`) |
| Annotations.SlugOfSpaced | scripts/generate-manifest.js:105-108 | a word, one space and the rest become the word, a hyphen and the id of the rest |
| Annotations.CollapseNoSeps | scripts/generate-manifest.js:107 | text without separators passes the collapse unchanged |
| Annotations.HyphenateNoBoundary | scripts/generate-manifest.js:106 | text without a lower-to-upper boundary gains no hyphen |
| Annotations.CollapseAfter | scripts/generate-manifest.js:107 | a separator-free prefix passes the collapse unchanged |
| Annotations.CollapseOne | scripts/generate-manifest.js:107 | one separator before a word becomes one hyphen |
| Annotations.ParseTags | scripts/generate-manifest.js:114 | every tag is non-empty, trimmed and free of commas |
| Annotations.TagsRoundTrip | scripts/generate-manifest.js:114 | joining non-empty, trimmed, comma-free tags with a comma and any white-space padding and parsing them again gives the same tags |
| Annotations.SplitPadded | scripts/generate-manifest.js:114 | splitting items joined by a separator and padding gives the padded items |
| Annotations.TrimPaddedItems | scripts/generate-manifest.js:114 | trimming the padded items gives the items |
| Annotations.NonEmptyOfNonEmpty | scripts/generate-manifest.js:114 | `filter(Boolean)` keeps a list of non-empty strings whole |
| Annotations.NormalizeCategory | scripts/generate-manifest.js:117 | a category is trimmed and has no upper-case letter |
| Annotations.NormalizeCategoryIdempotent | scripts/generate-manifest.js:117 | normalising twice is normalising once |
| Annotations.PropPieces | scripts/generate-manifest.js:121 | the split at `- ` at the start or after a line break yields at least one piece |
| Annotations.SplitAtItems | scripts/generate-manifest.js:121 | the split at `\n- ` or `\r\n- ` yields at least one piece |
| Annotations.SplitLines | scripts/generate-manifest.js:123 | `split(/\r?\n/)` yields at least one line |
| Annotations.LinePair | scripts/generate-manifest.js:126-131 | a kept pair has a non-empty, trimmed value |
| JsObjects.SetKey | scripts/generate-manifest.js:131 | `prop[key] = value`: under `__proto__` the object stays as it was; otherwise the keys stay distinct and in object order (array indices first, by value, then the other keys in insertion order), the key is added and holds the value, and every other pair stays, in the same relative order |
| JsObjects.IndexKeyGoesFirst | scripts/generate-manifest.js:131 | a new array-index key assigned to an object that holds no index is listed first, ahead of every earlier key |
| Annotations.PropOf | scripts/generate-manifest.js:123-134 | a prop has distinct keys in object order, no `__proto__` key, and non-empty, trimmed values |
| Annotations.KeepProps | scripts/generate-manifest.js:121-135 | every kept prop has distinct keys in object order |
| Annotations.ParseProps | scripts/generate-manifest.js:121-135 | every prop of a props tag has distinct keys in object order |
| Annotations.PropsRoundTrip | scripts/generate-manifest.js:119-136 | writing props as `- key: value` lines and parsing them again gives the same props, for pairs the format can carry (no `__proto__` key) and props whose keys are already in object order |
| Annotations.UnusablePieceKept | scripts/generate-manifest.js:122-135 | a non-blank paragraph without a usable line still yields one empty prop |
| Annotations.ItemsAfterPlain | scripts/generate-manifest.js:121 | text without a line break is never split, whatever follows |
| Annotations.ItemsAfterBreak | scripts/generate-manifest.js:121 | a line break not followed by `- ` stays inside the piece |
| Annotations.ItemsAtSeparator | scripts/generate-manifest.js:121 | `\n- ` ends a piece |
| Annotations.ItemsOfLines | scripts/generate-manifest.js:121 | the joined lines of one prop are one piece |
| Annotations.ItemsOfProp | scripts/generate-manifest.js:121 | a rendered prop is one piece |
| Annotations.ItemsOfRendered | scripts/generate-manifest.js:121 | rendered props joined by `\n- ` split back into the rendered props |
| Annotations.LinesOfJoin | scripts/generate-manifest.js:123 | splitting clean lines joined by line breaks gives the lines |
| Annotations.LinesNoBreak | scripts/generate-manifest.js:123 | a line without a break is one line |
| Annotations.LinesOfPlain | scripts/generate-manifest.js:123 | a clean line before a break is one line |
| Annotations.LinePairOf | scripts/generate-manifest.js:126-131 | a rendered `key: value` line reads back as its pair |
| Annotations.PropOfLines | scripts/generate-manifest.js:123-134 | the lines of a clean prop whose keys are in object order read back as the prop |
| Annotations.PropOfStep | scripts/generate-manifest.js:125-133 | a usable line whose key is new, is not `__proto__`, and comes after the keys read so far in object order appends its pair |
| Annotations.IndexLineReadFirst | scripts/generate-manifest.js:123-134 | a line for an array index read after lines with no index key is listed first: `- b: x` then `1: y` gives `{1: y, b: x}` |
| Annotations.ProtoLineDropped | scripts/generate-manifest.js:130-131 | a usable line with the key `__proto__` adds nothing to the prop |
| JsObjects.SetKeyFresh | scripts/generate-manifest.js:131 | assigning a new key other than `__proto__` that comes after every existing key in object order appends it |
| Annotations.PieceOfProp | scripts/generate-manifest.js:122-134 | a rendered clean prop in object order reads back as the prop |
| Annotations.KeepRendered | scripts/generate-manifest.js:121-135 | rendered clean props in object order read back as the props |
| Annotations.KeepPropsAppend | scripts/generate-manifest.js:121-135 | the map and filter distribute over concatenation |
| Annotations.LastTag | scripts/generate-manifest.js:100-102 | a found tag is among the tags and has the asked kind, and a non-empty body when asked |
| Annotations.ApplyTagEffect | scripts/generate-manifest.js:102-137 | one turn of the switch, field by field: each case sets only its fields, an unknown title changes nothing, an empty props body is skipped |
| Annotations.ApplyTag | scripts/generate-manifest.js:100-137 | one turn of the tag switch never touches the version or the paths; `ApplyTagEffect` states each case |
| Annotations.Draft | scripts/generate-manifest.js:89-137 | the entry a comment yields before its paths and version; `DraftFields` and the `Last…Wins` lemmas state its fields |
| Annotations.ApplyTagCases | scripts/generate-manifest.js:102-137 | the same, case by case on the title |
| Annotations.TagSwitch | scripts/generate-manifest.js:101-137 | the switch on the title computes `ApplyTag` |
| Annotations.BuildEntry | scripts/generate-manifest.js:89-138 | the entry built from the blank entry by the tag loop is `Draft(doc)` |
| Annotations.LastNameWins | scripts/generate-manifest.js:103-109 | name and id come from the last `name` tag, else they keep their start values |
| Annotations.LastDescriptionWins | scripts/generate-manifest.js:110-112 | the description comes from the last `description` tag |
| Annotations.LastTagsWins | scripts/generate-manifest.js:113-115 | the tags come from the last `tags` tag |
| Annotations.LastCategoryWins | scripts/generate-manifest.js:116-118 | the category comes from the last `category` tag |
| Annotations.LastPropsWins | scripts/generate-manifest.js:119-136 | the props come from the last `props` tag with a non-empty body |
| Annotations.TagsKeepPlacement | scripts/generate-manifest.js:100-138 | no tag changes the version or the paths |
| Annotations.DraftFields | scripts/generate-manifest.js:89-109 | the id is always the slug of the name; the name comes from the last `name` tag or is empty; the description defaults to the comment's text; the version starts at 1.0.0 |
| Annotations.FingerprintIgnoresIdentity | scripts/generate-manifest.js:61-69 | the fingerprint depends only on description, props, tags and category |
| Annotations.LastIndex | scripts/generate-manifest.js:141 | a found position is in range |
| Annotations.LastIndexIsLast | scripts/generate-manifest.js:141 | finds the last occurrence, and finds nothing exactly when there is none |
| Annotations.NameStart | scripts/generate-manifest.js:141 | the file name starts within the path |
| Annotations.WithoutExtensionOf | scripts/generate-manifest.js:141-142 | removing the extension of `<path>.<ext>` gives `<path>` |
| Annotations.ImportPathOfSource | scripts/generate-manifest.js:141-142 | `src/<stem>.<ext>` is imported as `./<stem>` |
| Annotations.ImportPath | scripts/generate-manifest.js:140-142 | the import path always starts with `./`; `ImportPathOfSource` states its value for a file under `src/` |
| Annotations.NameStartOf | scripts/generate-manifest.js:141 | a slash-free tail does not move the file name's start |
| Annotations.LastIndexOfTail | scripts/generate-manifest.js:141 | the last occurrence in `a + b` is `b`'s, shifted, or else `a`'s |
| Versioning.Bump | scripts/generate-manifest.js:71-75 | only the third segment goes up, by one |
| Versioning.Reconciled | scripts/generate-manifest.js:145-156 | with the history's own records: a recorded id never goes down, and keeps its version exactly when its fingerprint is unchanged |
| Versioning.ReconciledAsWritten | scripts/generate-manifest.js:145-156 | the lookup on a plain object as written: it throws exactly when the id has no record of its own and names a property inherited from `Object.prototype` |
| Versioning.AsWrittenAgrees | scripts/generate-manifest.js:145-156 | the lookup as written gives the own-record version for every id except an inherited name without a record, where it throws |
| Versioning.ConstructorThrows | scripts/generate-manifest.js:145-156 | on an empty history the id `constructor` throws as written and gets 1.0.0 with the own-record lookup |
| Versioning.ReconciledOutcomes | scripts/generate-manifest.js:145-156 | with the history's own records: a new id gets 1.0.0, an equal fingerprint keeps the version, a different one bumps the patch; a version never goes down |
| Versioning.History.constructor | scripts/generate-manifest.js:12-20 | the history starts as the records loaded from the persisted file |
| Versioning.History.Reconcile | scripts/generate-manifest.js:144-162 | with the history's own records: returns the reconciled version and overwrites the id's record with it and the fingerprint |
| Versioning.RunAll | scripts/generate-manifest.js:140-165 | a run assigns one version per key |
| Versioning.RunAppend | scripts/generate-manifest.js:188-191 | a run over `a + b` is the run over `a`, then the run over `b` from the history `a` left |
| Versioning.RunMonotone | scripts/generate-manifest.js:145-162 | across a run every id keeps its record at the same or a later version, and exactly the ids seen are added |
| Versioning.FirstSightIsInitial | scripts/generate-manifest.js:154-156 | an id new to the history and to the run gets 1.0.0 |
| Versioning.StableRun | scripts/generate-manifest.js:147-149 | a history that already holds each key's version and fingerprint is left as it is |
| Versioning.RunRecordsEachKey | scripts/generate-manifest.js:158-162 | with distinct ids, the history afterwards holds each key's own version and fingerprint |
| Versioning.RunIdempotent | scripts/generate-manifest.js:144-162 | with distinct ids, running again over the same keys from the history the first run left changes nothing |
| Versioning.SharedIdIsNotIdempotent | scripts/generate-manifest.js:145-162 | two entries sharing an id with different fingerprints keep bumping each other on every run |
| Versioning.AtMostTransitive | scripts/generate-manifest.js:71-75 | version order is transitive |
| ManifestGenerator.CategoryBuckets | scripts/generate-manifest.js:23-42 | the bucket of each category: singular and plural of `layout`, `util` and `hook` to their buckets, `data` to its own, every other category (the missing one too) to `components` |
| ManifestGenerator.Place | scripts/generate-manifest.js:200-204 | one bucket grows by the entry at its end, the others are unchanged |
| ManifestGenerator.BucketedContents | scripts/generate-manifest.js:193-204 | each bucket holds exactly the entries whose category maps to it, in order; the sizes add up to the number of entries |
| ManifestGenerator.BucketOf | scripts/generate-manifest.js:197-198 | an entry with no category goes to `components`; `CategoryBuckets` states every category's bucket |
| ManifestGenerator.Bucketed | scripts/generate-manifest.js:193-204 | the manifest the entries produce, one push per entry; `BucketedContents` states each bucket's contents |
| ManifestGenerator.RegistryOf | scripts/generate-manifest.js:207-221 | the registry the entries produce; `RegistryIds`, `RegistryDistinct` and `RegistryIsFirstEligible` state what it holds |
| ManifestGenerator.RegistryIds | scripts/generate-manifest.js:207-221 | the registry ids are exactly the ids of eligible entries |
| ManifestGenerator.RegistryDistinct | scripts/generate-manifest.js:215-221 | registry ids are pairwise distinct |
| ManifestGenerator.RegistryIsFirstEligible | scripts/generate-manifest.js:213-221 | the registry is the records of the first eligible entry per id, in scan order |
| ManifestGenerator.EligibleIdsSnoc | scripts/generate-manifest.js:213 | one more entry adds its id to the eligible ids exactly when it is eligible |
| ManifestGenerator.RecordIdsSnoc | scripts/generate-manifest.js:216-217 | one more record adds its id |
| ManifestGenerator.InheritedCategoryDiverges | scripts/generate-manifest.js:198-207 | as written, a category named after a property inherited from `Object.prototype` (after lower-casing only `constructor` and `__proto__` can occur) is filed in `components` but kept out of the registry |
| ManifestGenerator.UnlistedCategoryListed | scripts/generate-manifest.js:198-207 | as written, any other unlisted category is filed in `components` and listed |
| ManifestGenerator.BucketDecidesRenderable | scripts/generate-manifest.js:198-207 | with the own-property lookup, every unlisted category goes to `components` and is listed, and listing depends on the bucket only |
| ManifestGenerator.WrittenAgreesElsewhere | scripts/generate-manifest.js:198-207 | the lookup as written and the own-property lookup agree on every category except the names inherited from `Object.prototype` |
| ManifestGenerator.WrittenKey | scripts/generate-manifest.js:198 | `CATEGORY_MAP[rawCat] \|\| 'components'` never comes out missing; an own key is the own-property bucket, and an inherited property is found exactly for an unlisted inherited name |
| ManifestGenerator.ConstructorNameThrows | scripts/generate-manifest.js:145-151 | a comment named `Constructor` gets the id `constructor`, which throws as written on a history with no record of it |
| ManifestGenerator.DraftsShape | scripts/generate-manifest.js:86-142 | every entry comes from a wizard comment with a non-empty name, has the slug of that name as id, is imported from its file, and starts at 1.0.0 |
| ManifestGenerator.NoWizardNoEntries | scripts/generate-manifest.js:86-87 | comments without a `wizard` tag yield nothing |
| ManifestGenerator.DraftsAppend | scripts/generate-manifest.js:82-166 | entries come in comment order |
| ManifestGenerator.KeysIgnorePath | scripts/generate-manifest.js:194 | recording the file path changes neither id nor fingerprint |
| ManifestGenerator.Generate | scripts/generate-manifest.js:185-227 | a run yields one entry per draft |
| ManifestGenerator.GenerateIdempotent | scripts/generate-manifest.js:144-162 | with distinct ids, a second run over unchanged sources from the history the first run wrote gives the same entries and history |
| ManifestGenerator.GenerateMonotone | scripts/generate-manifest.js:158-162 | across a run the history keeps every id at the same or a later version and gains exactly the entries' ids |
| ManifestGenerator.ParseJsDoc | scripts/generate-manifest.js:77-168 | returns the file's drafts, versioned in order against the history, and leaves the history the run over them writes |
| ManifestGenerator.ParseBlocks | scripts/generate-manifest.js:82-166 | the loop over the blocks does the same for a list of blocks |
| ManifestGenerator.ParseBlock | scripts/generate-manifest.js:83-165 | one block: nothing unless it is a wizard comment with a name, else its entry, versioned and recorded |
| ManifestGenerator.RunOne | scripts/generate-manifest.js:144-162 | running one entry reconciles its id and fingerprint once |
| ManifestGenerator.RunStampAppend | scripts/generate-manifest.js:82-166 | versioning `a + b` is versioning `a`, then `b` from the history `a` left |
| ManifestGenerator.GenerateSnoc | scripts/generate-manifest.js:188-191 | a run over one more file appends that file's entries, versioned against the history the earlier files left |
| ManifestGenerator.FileStep | scripts/generate-manifest.js:188-194 | a file's parsed entries, with their path, extend the run by that file |
| ManifestGenerator.TallyStep | scripts/generate-manifest.js:193-225 | one entry is counted, filed, and listed when eligible with a new id |
| ManifestGenerator.TallyEntries | scripts/generate-manifest.js:193-226 | the loop over a file's entries keeps count, buckets and registry equal to those of all entries so far |
| ManifestGenerator.TallyFiles | scripts/generate-manifest.js:186-227 | the loop over files yields `Bucketed`, `RegistryOf` and the count of the run's entries, and the run's history |
| ManifestGenerator.BuildManifest | scripts/generate-manifest.js:171-227 | the manifest, registry, count and history are those of the run over the walked files |
| ManifestGenerator.StampAppend | scripts/generate-manifest.js:164 | versioning distributes over concatenation |
| ManifestGenerator.StampWithPath | scripts/generate-manifest.js:194 | recording the path and versioning commute |
| Pagination.GetPageNumbers | src/components/navigation/Pagination.tsx:50-89 | the loops compute `PageList` |
| Pagination.WindowedPages | src/components/navigation/Pagination.tsx:59-88 | the windowed branch computes `PageList` |
| Pagination.PushRange | src/components/navigation/Pagination.tsx:77-79 | the loop appends the pages from start to end |
| Pagination.PageRangeSnoc | src/components/navigation/Pagination.tsx:53-55 | extending the range by one page appends it |
| Pagination.PageListShape | src/components/navigation/Pagination.tsx:50-89 | for a page in range and at least one button, the list starts with page 1, ends with the last page, and shows the current page; its numbers increase; neighbours are consecutive; an ellipsis stands exactly where pages are skipped; with no more pages than buttons it is every page |
| Pagination.PageListIsRendered | src/components/navigation/Pagination.tsx:59-88 | the windowed list is the well-spaced rendering of its numbers |
| Pagination.ShownIncreasing | src/components/navigation/Pagination.tsx:59-86 | the numbers shown increase, start at 1, end at the last page and hold the current page |
| Pagination.WindowBounds | src/components/navigation/Pagination.tsx:59-68 | the window lies within the pages and holds the current page |
| Pagination.WindowCentred | src/components/navigation/Pagination.tsx:59-68 | away from both edges (`c - half > 1` and `c + half < t`) the window is exactly `c - half .. c + half` |
| Pagination.CentredWindow | src/components/navigation/Pagination.tsx:59-86 | at least two pages from either edge: page 1, an ellipsis, `half` pages each side, an ellipsis, the last page |
| Pagination.FewPages | src/components/navigation/Pagination.tsx:52-57 | with no more pages than buttons, every page is shown |
| Pagination.RenderShape | src/components/navigation/Pagination.tsx:70-86 | rendering increasing numbers is well spaced, gives back the numbers, and starts and ends with their pages |
| Pagination.RenderedAwayFromStart | src/components/navigation/Pagination.tsx:70-86 | a window past page 1 renders as lead, window and trail |
| Pagination.RenderedAtStart | src/components/navigation/Pagination.tsx:77-86 | a window from page 1 renders as the pages and the trail |
| Pagination.TrailRendered | src/components/navigation/Pagination.tsx:81-86 | the trail is the rendering of the last page after the window |
| Pagination.NavigationStaysInRange | src/components/navigation/Pagination.tsx:95-101 | a button is disabled exactly when its target is out of range, so an enabled one always requests an existing page |
| Pagination.PageList | src/components/navigation/Pagination.tsx:50-89 | for at least one page, every page button is a page from 1 to `totalPages`, whatever the width and current page; `PageListShape` states its shape |
| Pagination.ButtonsInRange | src/components/navigation/Pagination.tsx:70-86 | a window within the pages, with its lead and trail, shows only existing pages |
| Pagination.StartPage | src/components/navigation/Pagination.tsx:59-68 | with more pages than buttons the window starts at page 1 or later, and for a page in range it starts at or before the current page |
| Pagination.EndPage | src/components/navigation/Pagination.tsx:59-68 | with more pages than buttons the window ends at the last page or earlier, and for a page in range it ends at or after the current page |
| Pagination.PageRange | src/components/navigation/Pagination.tsx:77-79 | the buttons for pages `a` to `b`, in order, one per page |
| Pagination.Visible | src/components/navigation/Pagination.tsx:103-105 | the control renders only for more than one page |
| Pagination.PrevTarget | src/components/navigation/Pagination.tsx:95-97 | the page before the current one; `NavigationStaysInRange` states when it exists |
| Pagination.PrevDisabled | src/components/navigation/Pagination.tsx:113 | disabled on page 1; `NavigationStaysInRange` states it is disabled exactly when its target is out of range |
| Pagination.NextTarget | src/components/navigation/Pagination.tsx:99-101 | the page after the current one; `NavigationStaysInRange` states when it exists |
| Pagination.NextDisabled | src/components/navigation/Pagination.tsx:144 | disabled on the last page; `NavigationStaysInRange` states it is disabled exactly when its target is out of range |
| FormTemplate.InitialState | src/components/forms/FormTemplate.tsx:127-141 | the `forEach` builds `InitialData(fields)` |
| FormTemplate.InitialData | src/components/forms/FormTemplate.tsx:127-141 | the fields' writes in order; no field can give the data an own `__proto__` key |
| FormTemplate.Assign | src/components/forms/FormTemplate.tsx:131-137 | `initialState[key] = value`: `__proto__` adds no key; any other key gets the value; every other key is unchanged |
| FormTemplate.InitialKeys | src/components/forms/FormTemplate.tsx:129-139 | a key is in the initial data exactly when it is not `__proto__` and some field writes it |
| FormTemplate.LastWriterWins | src/components/forms/FormTemplate.tsx:129-139 | a key other than `__proto__` holds the value of the last field that writes it |
| FormTemplate.FieldStarts | src/components/forms/FormTemplate.tsx:130-137 | checkbox and toggle start at their flag or false; a checked radio writes its value under its group; an unchecked radio writes nothing; any other field starts at its value, a falsy one as `''` |
| FormTemplate.Or | src/components/forms/FormTemplate.tsx:137 | `a \|\| b` is `a` when truthy, else `b` |
| FormTemplate.FieldChange | src/components/forms/FormTemplate.tsx:143-145 | the key gets the value, the keys grow by it, every other key is unchanged |
| FormTemplate.ChangeKeyIsInitialKey | src/components/forms/FormTemplate.tsx:157-167 | a field's changes land under the key its initial value was written to |
| FormTemplate.AtMostOneRadioChecked | src/components/forms/FormTemplate.tsx:167 | in a group with distinct values at most one radio shows as checked |
| FormTemplate.RadioChecked | src/components/forms/FormTemplate.tsx:167 | `formData[radioGroup] === value`; a radio whose value is not `undefined` shows as checked only when its group holds a value |
| FormTemplate.DomValue | src/components/forms/FormTemplate.tsx:167 | the DOM reports a number as text, so the result is never a number; any other value is reported as it is |
| FormTemplate.SelectRadioAsWritten | src/components/forms/FormTemplate.tsx:167 | as written: the group receives the DOM's value; for a non-numeric value this is `SelectRadio` |
| FormTemplate.SelectRadio | src/components/forms/FormTemplate.tsx:167 | corrected: the group receives the radio's own value, so the radio shows as checked |
| FormTemplate.NumericRadioNotChecked | src/components/forms/FormTemplate.tsx:167 | as written, a radio with a numeric value is not checked after it is selected |
| FormTemplate.SelectedRadioIsChecked | src/components/forms/FormTemplate.tsx:167 | selecting a radio by its own value checks it, unchecks the group's other values, and changes no other key |
| FormTemplate.Form.constructor | src/components/forms/FormTemplate.tsx:127-141 | the form starts with the initial data |
| FormTemplate.Form.HandleFieldChange | src/components/forms/FormTemplate.tsx:143-145 | the data becomes `FieldChange` of the old data |
| FormTemplate.Form.HandleRadioChange | src/components/forms/FormTemplate.tsx:167 | the data becomes `SelectRadioAsWritten` of the old data: the group receives the value as the DOM reports it, as text; afterwards the radio shows as checked exactly when its value is not a number |
| FormTemplate.Form.Checked | src/components/forms/FormTemplate.tsx:167 | the radio's `checked`: the group's value equals the radio's own; `HandleRadioChange` states when it holds after a click |
| FormTemplate.Form.HandleSubmit | src/components/forms/FormTemplate.tsx:147-150 | the current data is submitted unchanged |
| AccordionLayout.Accordion.constructor | src/layout/Accordion.tsx:113-114 | nothing is open at first |
| AccordionLayout.Accordion.HandleToggleItem | src/layout/Accordion.tsx:116-120 | in single-open mode, opening makes the item the only open one and closing leaves none open; otherwise nothing changes |
| AccordionLayout.Toggled | src/layout/Accordion.tsx:118 | the item is open exactly when it asked to be, and no other item is |
| AccordionLayout.AtMostOneOpen | src/layout/Accordion.tsx:129 | with distinct ids at most one item is open |
| AccordionLayout.Accordion.ChildIsOpen | src/layout/Accordion.tsx:128-131 | a child gets `id === openItem` in single-open mode and `undefined` otherwise |
| AccordionLayout.Accordion.Mount | src/layout/Accordion.tsx:126-132 | an item mounted inside the container starts from the props the container hands it: controlled and open exactly when it is the open item in single-open mode, otherwise uncontrolled and closed, whatever `isOpen` it was written with |
| AccordionLayout.Accordion.Render | src/layout/Accordion.tsx:128-131 | a rendered child gets `isOpen` and `onToggle` from the container and keeps its own state |
| AccordionLayout.Accordion.Click | src/layout/Accordion.tsx:45-51 | a click in single-open mode opens a closed item as the only open one or closes the open one; otherwise the item flips its own state |
| AccordionLayout.AccordionItem.constructor | src/layout/Accordion.tsx:41 | the internal state starts at `isOpen`, false when absent |
| AccordionLayout.AccordionItem.ActiveIsOpen | src/layout/Accordion.tsx:42-43 | a controlled item shows its prop, an uncontrolled one its own state |
| AccordionLayout.AccordionItem.HandleToggle | src/layout/Accordion.tsx:45-51 | a controlled item with a callback reports `(id, !shown)` and keeps its state; any other item flips its state and reports nothing |
| AccordionLayout.UncontrolledFlips | src/layout/Accordion.tsx:45-51 | an uncontrolled item shows the opposite state after a toggle |
| AccordionLayout.ControlledWithoutCallbackStays | src/layout/Accordion.tsx:42-51 | a controlled item without a callback flips only its hidden state, so what it shows does not change |
| Toasts.MakeToast | src/components/feedback/ToastProvider.tsx:61-64 | an absent type is `info`, an absent duration 3000 |
| Toasts.Without | src/components/feedback/ToastProvider.tsx:68 | no surviving toast has the id |
| Toasts.WithoutMembers | src/components/feedback/ToastProvider.tsx:68 | a toast survives exactly when it was there and has another id |
| Toasts.WithoutAppend | src/components/feedback/ToastProvider.tsx:68 | dismissal keeps the survivors' order |
| Toasts.WithoutAbsent | src/components/feedback/ToastProvider.tsx:68 | dismissing an unknown id changes nothing |
| Toasts.DismissUndoesAdd | src/components/feedback/ToastProvider.tsx:61-69 | dismissing a just-added toast with a new id restores the list |
| Toasts.WithoutIdempotent | src/components/feedback/ToastProvider.tsx:68 | dismissing twice is dismissing once |
| Toasts.ToastProvider.constructor | src/components/feedback/ToastProvider.tsx:59 | no toast at first |
| Toasts.ToastProvider.AddToast | src/components/feedback/ToastProvider.tsx:61-65 | one toast is appended, the earlier ones kept in order |
| Toasts.ToastProvider.DismissToast | src/components/feedback/ToastProvider.tsx:67-69 | the list becomes `Without` the id |
| ComboBoxForm.Matching | src/form/ComboBox.tsx:60-64 | every listed option matches the text |
| ComboBoxForm.MatchingMembers | src/form/ComboBox.tsx:60-64 | an option is listed exactly when it is an option and its label contains the text, ignoring case |
| ComboBoxForm.MatchingAppend | src/form/ComboBox.tsx:61 | the filter keeps the options' order |
| ComboBoxForm.Filtered | src/form/ComboBox.tsx:56-67 | never more options than given, and for non-empty text only matching ones; `EmptyTextMatchesAll` shows the empty-text case agrees with the filter |
| ComboBoxForm.Matches | src/form/ComboBox.tsx:61-63 | the label contains the text, both lower-cased; `MatchingMembers` states the filter keeps exactly the matches |
| ComboBoxForm.EmptyTextMatchesAll | src/form/ComboBox.tsx:57-58 | the empty-text case agrees with the general filter |
| ComboBoxForm.CaseIgnored | src/form/ComboBox.tsx:62 | typing the text in another case lists the same options |
| ComboBoxForm.SameFoldSameMatches | src/form/ComboBox.tsx:62 | texts equal up to case list the same options |
| ComboBoxForm.SelectedStaysListed | src/form/ComboBox.tsx:56-78 | after a click the chosen option is still listed |
| ComboBoxForm.FindByValue | src/form/ComboBox.tsx:51 | `find` returns the first option with the value, or none when there is none |
| ComboBoxForm.SyncedText | src/form/ComboBox.tsx:49-54 | the effect sets text exactly when the value is defined; `null` empties it |
| ComboBoxForm.SyncedTextShowsLabel | src/form/ComboBox.tsx:51-52 | a carried value shows the first matching option's label; any other value empties the text |
| ComboBoxForm.ComboBox.constructor | src/form/ComboBox.tsx:39-42 | empty text, every option, closed, nothing highlighted |
| ComboBoxForm.ComboBox.SyncControlledValue | src/form/ComboBox.tsx:49-54 | the text becomes the synced text when the value is defined, and nothing else changes |
| ComboBoxForm.ComboBox.FilterEffect | src/form/ComboBox.tsx:56-67 | the list becomes `Filtered` of the text and the highlight is cleared |
| ComboBoxForm.ComboBox.HandleInputChange | src/form/ComboBox.tsx:69-72 | the text is taken and the list opens |
| ComboBoxForm.ComboBox.HandleOptionClick | src/form/ComboBox.tsx:74-78 | the text becomes the label, the list closes, value and label are reported |
| ComboBoxForm.ComboBox.HandleInputFocus | src/form/ComboBox.tsx:80-82 | the list opens |
| ComboBoxForm.ComboBox.Type | src/form/ComboBox.tsx:56-72 | after typing and the effect, the list is open and shows exactly the matching options; the list is drawn exactly when some option matches the text |
| ComboBoxForm.ComboBox.Choose | src/form/ComboBox.tsx:56-78 | after a click and the effect, the list is closed and still offers the chosen option; the list is not drawn |
| ComboBoxForm.ComboBox.ListShown | src/form/ComboBox.tsx:117 | the list is drawn when open and non-empty; `Type` and `Choose` state when it holds |
| ComboBoxForm.FilteredNonEmpty | src/form/ComboBox.tsx:61-72 | the filtered list is non-empty exactly when some option matches the text |
| AvatarInitials.SinglePiece | src/components/ui/Avatar.tsx:43 | a name without spaces gives its first two characters, upper-cased, or fewer when it is shorter |
| AvatarInitials.Initials | src/components/ui/Avatar.tsx:38-44 | `getInitials` leaves no lower-case ASCII letter; `SinglePiece`, `TwoInitials` and `LeadingSpace` state its value by the shape of the name |
| AvatarInitials.TwoInitials | src/components/ui/Avatar.tsx:39-41 | with non-empty first and last pieces, the initials are their first letters, upper-cased, whatever lies between |
| AvatarInitials.FirstAndLastPieces | src/components/ui/Avatar.tsx:39-41 | the same, for one layout of the name |
| AvatarInitials.SplitEndsWithPiece | src/components/ui/Avatar.tsx:39 | splitting `x + " " + b` has at least two pieces and ends with `b` |
| AvatarInitials.LeadingSpace | src/components/ui/Avatar.tsx:39-41 | a leading space makes the empty first piece read as `undefined`, so the initials start with `UNDEFINED` |
| AvatarInitials.FirstOrUndefined | src/components/ui/Avatar.tsx:41 | indexing a non-empty piece gives its first character |
| AvatarInitials.AvatarContent | src/components/ui/Avatar.tsx:64-72 | the picture exactly when `src` is a non-empty string, with the name as alt text; the initials otherwise |
| Text.Split | scripts/generate-manifest.js:114 | `split` on one character: at least one piece, none containing the separator |
| Text.SplitJoin | scripts/generate-manifest.js:114 | re-joining the pieces gives the string |
| Text.JoinSplit | scripts/generate-manifest.js:114 | splitting pieces without the separator, joined by it, gives the pieces |
| Text.Trim | scripts/generate-manifest.js:114 | the result neither starts nor ends with white space |
| Text.TrimPadded | scripts/generate-manifest.js:128-129 | trimming removes exactly the white space around a trimmed core |
| Text.TrimEmpty | scripts/generate-manifest.js:122 | a string trims to empty exactly when it is all white space |
| Text.Find | scripts/generate-manifest.js:126 | `indexOf` returns the first occurrence, or none when there is none |
| Text.Contains | src/form/ComboBox.tsx:62 | `includes` holds exactly when the pattern occurs at some position |
| Text.StartsWith | scripts/generate-manifest.js:210-211 | `startsWith`: the string begins with the prefix |
| Text.EndsWith | scripts/generate-manifest.js:52-53 | `endsWith`: the string ends with the suffix |
| Text.Lower | scripts/generate-manifest.js:108 | `toLowerCase` maps each character, ASCII letters only |
| Text.Upper | src/components/ui/Avatar.tsx:41-43 | `toUpperCase` maps each character, ASCII letters only |
| Text.LowerIdempotent | src/form/ComboBox.tsx:62 | lower-casing twice is lower-casing once |

## Left out

- File system I/O is left out:
  - `fs.readdirSync` becomes a tree of `Item` values.
  - File contents are strings in it.
  - The history is read from and written to JSON at generate-manifest.js:12-20 and 229.
  - The manifest and registry files are written at 233-243.
  - Log lines are left out.
- The directory path is taken as already normalised. `path.relative` and the backslash replacement at generate-manifest.js:190 are left out.
- The import path's `\\` replacement is left out.
- `doctrine.parse` is a function parameter `parse`.
  - Its result is a `Doc`: a description and tags with title, name and description, absent ones as `""`.
  - The `unwrap`/`sloppy` behaviour is not modelled.
- The md5 hash of the JSON serialisation is a function parameter `digest` over the four fingerprint fields. No collision-freedom is assumed.
- `lastUpdated` timestamps (`new Date().toISOString()`) are not modelled.
- Versions are three natural numbers. A stored version that is not `x.y.z` with number segments (where `bumpVersion` would give `NaN`) is not modelled.
- Case mapping (`toLowerCase`, `toUpperCase`, and the `[a-z]`/`[A-Z]` classes) covers ASCII letters only.
- Strings are sequences of Unicode code points, while JavaScript strings are sequences of UTF-16 code units. The operations here split, search and slice at ASCII characters, where the two agree. Taking a fixed number of characters does not agree:
  - `AvatarInitials.Initials`: for a name that starts with a character outside the Basic Multilingual Plane, such as an emoji, `names[0][0]` and `substring(0, 2)` (Avatar.tsx:41,43) take single code units. For `"😀a"` the source gives `"😀"` and the model gives `"😀A"`.
  - `AvatarInitials.FirstOrUndefined`: the first code point, not the first code unit.
- Numbers are integers. Fractions, infinities and `NaN` are not modelled:
  - `FormTemplate.Or`: a `NaN` field value, which is falsy (FormTemplate.tsx:137), cannot occur.
  - `FormTemplate.DomValue`: only the decimal text of an integer is modelled.
  - `ComboBoxForm.FindByValue`: numeric option values are integers, so a `NaN` value, which `===` never finds, cannot occur.
  - `Toasts.MakeToast`: the duration is an integer number of milliseconds.
  - `Pagination.PageList`: the current page, the page count and `maxPageButtons` are integers. For them `Math.floor(maxPageButtons / 2)` is Dafny's `/`.
- Plain objects:
  - Props are sequences of pairs in object order (`JsObjects.SetKey`): array-index keys first, by value, then the other keys in insertion order; `__proto__` is never an own key.
  - The history and the form data are maps of own keys. Their key order is not modelled. Nothing reads it back except the JSON written to the history file.
  - `JsObjects.IsIndexKey`: an array index is the canonical decimal text of an integer from 0 to 2^32 - 2. Other integer-like keys, such as `01` or `4294967295`, are ordinary keys.
- `Annotations.PropsRoundTrip`: holds for props whose keys are in object order and exclude `__proto__`. For any other prop the source itself does not read back what was written: `IndexLineReadFirst` shows an index line moving ahead, and `ProtoLineDropped` shows a `__proto__` line being dropped.
- `FormTemplate.FieldChange`: `{...prev, [name]: value}` defines an own key even for `__proto__`, so it is a plain map update.
- `FormTemplate.Assign`: assigning an object or `null` under `__proto__` in the initial state replaces the data's prototype. The model adds no key. What later lookups would then inherit is not modelled.
- `FormTemplate.RadioChecked`: a group named after an `Object.prototype` property that is not an own key reads that property, which no field value equals. The model reads `undefined` there. So a radio whose value is `undefined` shows as checked in the model and not in the source.
- `Versioning.ReconciledOutcomes`: states the outcomes with the history's own records. As written, an id without a record that names an `Object.prototype` property throws instead (see Findings). `ReconciledAsWritten` models that lookup and `AsWrittenAgrees` relates the two.
- `Versioning.FirstSightIsInitial`: with the own-record lookup. As written, a first-seen `constructor` id throws instead of getting 1.0.0.
- `Versioning.History.Reconcile`: uses the own-record lookup `Reconciled`, so it never throws.
- `Versioning.RunAll`: uses the own-record lookup, and so do the lemmas about runs.
- `ManifestGenerator.ParseBlock`: uses the own-record lookup. As written, a wizard comment whose id is `constructor` and has no history record throws, and the catch at generate-manifest.js:249-255 ends the build with exit status 1.
- `ManifestGenerator.ParseBlocks`: the same lookup as `ParseBlock`, so it never throws.
- `ManifestGenerator.ParseJsDoc`: the same lookup as `ParseBlock`, so it never throws.
- `ManifestGenerator.BuildManifest`: uses the own-property category lookup (`BucketOf`), not the lookup as written. The two differ only for `constructor` and `__proto__` (see Findings).
- `ManifestGenerator.BuildManifest`: uses the own-record history lookup, so a `constructor` id never ends the build (see Findings).
- Pagination:
  - `Pagination.PageListShape`: requires `maxPageButtons >= 1`. A zero or negative width is not covered.
  - For an even `maxPageButtons` the window can hold one page more than the maximum. The model keeps this, and no lemma states a width bound.
  - `Math.floor(maxPageButtons / 2)` is Dafny's `/` for every integer width.
  - The early `return null` for one page or fewer is the predicate `Pagination.Visible` only.
  - Rendering (buttons, class names, the `primary` variant) is left out.
- The toast ids, built from `Date.now()` and `Math.random()`, are a parameter of `AddToast`. So are the ComboBox's random element id and the Toast component's timers (in Toast.tsx, which is not part of this model).
- FormTemplate:
  - Field rendering is left out.
  - The input components (Input, Radio, Select and the others) are not part of this model. Each is taken to report its change through `handleFieldChange` as the call site shows.
  - `e.preventDefault()` is not modelled.
- React batching and re-render timing are left out. An effect is modelled as an explicit method call after the handler that triggers it (`ComboBox.Type`, `ComboBox.Choose`).
- ComboBox:
  - A change to the `options` prop is not modelled. The options are fixed at construction.
  - The document-level `mousedown` listener (ComboBox.tsx:84-95) depends on DOM containment and is not modelled.
  - The keydown handler's body is elided in the source (ComboBox.tsx:97-99), so it does nothing and `highlightedIndex` stays -1.
- `AccordionLayout.AccordionItem.constructor`: builds an item from any props. An item inside an `Accordion` is built by `Accordion.Mount`. An `AccordionItem` rendered outside an `Accordion` keeps its props from construction. Prop changes from a parent other than `Accordion` are not modelled.

## Findings

| source | as written | input that shows it | evidently intended | confidence | as-written member | corrected member |
|---|---|---|---|---|---|---|
| scripts/generate-manifest.js:198-207 | `CATEGORY_MAP[rawCat] \|\| 'components'` also finds properties inherited from `Object.prototype`, so the key is not a bucket name | an entry with `@category constructor` (or `__proto__`) | an unlisted category goes to `components` and is listed like any other component | medium, not executed | ManifestGenerator.InheritedCategoryDiverges | ManifestGenerator.BucketDecidesRenderable |
| scripts/generate-manifest.js:145-156 | `componentHistory[entry.id]` also finds properties inherited from `Object.prototype`; such a property is truthy, has no `version`, and `bumpVersion(undefined)` throws | a wizard comment with `@name Constructor` (id `constructor`) and no history record | a new id starts at 1.0.0 | medium, not executed | ManifestGenerator.ConstructorNameThrows | Versioning.ReconciledOutcomes |
| src/components/forms/FormTemplate.tsx:167 | the radio stores `e.target.value`, which is always text, but `checked` compares with `===` against `field.value`, which may be a number | a radio field with `value: 1`, clicked | the selected radio shows as checked | medium, not executed | FormTemplate.NumericRadioNotChecked | FormTemplate.SelectedRadioIsChecked |

The category lookup as written is `WrittenKey`/`WrittenBucket`. The corrected lookup `BucketOf` is what `Bucketed`, `RegistryOf` and `BuildManifest` use.

The history lookup as written is `Versioning.ReconciledAsWritten`. `AsWrittenAgrees` and `ConstructorThrows` relate it to the corrected `Reconciled`, which `History.Reconcile`, `RunAll` and the manifest generator use. Among the inherited names, the slug can only produce `constructor`: `__proto__` becomes `-proto-`, and the other names contain a lower-to-upper boundary that gets a hyphen.

`FormTemplate.Form.HandleRadioChange` is the component as written: it stores the DOM's value (`SelectRadioAsWritten`, `DomValue`). The corrected selection is `SelectRadio`, and `SelectedRadioIsChecked` is proved about it.
