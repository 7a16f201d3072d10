# Carvana challenge bookkeeping, in Dafny

This project models the string and collection bookkeeping around the Carvana image-masking
pipeline (nsl2014fm/carvana-challenge) and proves what it promises. The neural networks,
tiling and RLE encoding are not part of it. The modelled code does four things:

- **Image names and car ids** (`util/load.py`). It expands each car id into the names of
  its 16 views (`<id>_01` … `<id>_16`) and collapses image names back to distinct car ids.
  It reads an image-set table and sorts the names. It lists the `.jpg` / `.csv` stems of a
  directory and splits a path into stem and extension.
- **The submission table** (`util/submit.py`). It writes a name → RLE dictionary as rows
  under the header `img,rle_mask`, with `.jpg` appended to each name. It reads such a table
  back, checking the header and stripping the extension.
- **Checkpoints and experiments** (`util/exp.py`). A checkpoint is saved as
  `<epoch>.pth.tar`. Resuming reads every `.pth.tar` entry's name as an epoch and builds
  the path `str(max) + '.pth.tar'` from the largest one. That path need not be a listed
  file: an entry `007.pth.tar` leads to `7.pth.tar`. If the file exists, training starts at
  the epoch after the saved one, otherwise at 1. The model class comes from the experiment
  name's prefix.
- **RLE table assembly** (`run_rle.py`). It un-batches the `(name, rle)` items of the RLE
  loader into a dictionary and saves it as the submission.

Modules:

- `Wrappers` holds the Python exceptions the code can raise (`Error`), `Option`, `Result`
  and `Outcome`.
- `Strings` models `str.split(c)[0]`, `str.endswith`, `str.rfind` and the ordering of
  `str`.
- `Numbers` models `str(int)`, `int(str)` and `'{:02d}'.format`.
- `Paths` models `posixpath.join`, `basename` and `splitext`.
- `Dicts` models a Python `dict` as an insertion-ordered sequence of distinct-key pairs,
  where `d[k] = v` is `Put`.
- `Load`, `Submit`, `Exp` and `RunRle` model the four source files.

The file system is a value. A directory listing is a `seq<string>`, or a sequence of
`DirEntry` when regular files must be told apart. A CSV file is a table
`seq<seq<string>>`, and the files on disk are a map from path to table or to checkpoint
record. The configuration constants `OUTPUT_DIR` and `SAVED_PREDS_DIR_NAME` live in
`util/const.py`, which is not part of this model, so they are parameters.

The loops of the source are methods proved against specification functions:

- `GetImgNamesFromCarIds` appends names in a nested loop.
- `LoadImageset` collects rows and then sorts them in place in an array, by insertion
  sort.
- `LoadPredictions` fills the dictionary row by row and checks the header on the first row.
- `ApplyRle` fills the dictionary batch by batch.

`Exp` is pure, as the source is.

## Model

| member | source | states |
|---|---|---|
| `Load.CarIdOf` | util/load.py:12 | the car id is the longest `_`-free prefix of the image name, followed by `_` when shorter than the name |
| `Load.GetCarIds` | util/load.py:11-15 | every result is the text before the first `_` of some input name, every such prefix is in the result, and no id appears twice |
| `Load.ViewName` | util/load.py:22 | the car id, `_`, then digits whose value is the view number, exactly two of them below 100 |
| `Load.ViewNames` | util/load.py:21-22 | one car yields exactly 16 view names |
| `Load.ImgNamesFromCarIds` | util/load.py:17-25 | the expansion has 16 names per car id |
| `Load.GetImgNamesFromCarIds` | util/load.py:17-25 | the nested append loop returns exactly the expansion of the car ids, in input order |
| `Load.ImgNameAt` | util/load.py:20-23 | name `16*k + j` is car `k`'s id, `_` and the two-digit view number `j+1` |
| `Load.CarIdOfViewName` | util/load.py:12-22 | the car id of a view name is the id it was made from, when the id has no `_` |
| `Load.ViewNameInjective` | util/load.py:22 | distinct (id, view) pairs give distinct names |
| `Load.ImgNamesDistinct` | util/load.py:17-25 | distinct ids without `_` expand to pairwise distinct names |
| `Load.ImgNamesDiffer` | util/load.py:17-25 | two different positions of the expansion hold different names |
| `Load.DecodeImgNameAt` | util/load.py:12-23 | the name at position `p` carries car `p / 16`'s id before its `_` and the view number `p % 16 + 1` after it |
| `Load.ViewNumberOfViewName` | util/load.py:22 | the digits after the `_` of a view name give back its view number |
| `Load.CarIdsRoundTrip` | util/load.py:12-23 | collapsing the expanded names gives back exactly the set of ids, for ids without `_` |
| `Load.CarIdRecovered` | util/load.py:12-23 | one id is in the collapsed names exactly when it was in the input ids |
| `Load.CarIdListed` | util/load.py:12-13 | the car id of every input name is in the result |
| `Load.CarIdSource` | util/load.py:12-13 | every result id comes from some input name |
| `Load.CarIdOfImgNameAt` | util/load.py:12-23 | the car id of name `16*k + j` is the `k`-th input id |
| `Load.LoadSmallImageset` | util/load.py:43-50 | the small image set is the expansion of the three fixed ids, 48 names |
| `Load.FirstFields` | util/load.py:31-32 | the first field of each row, row for row |
| `Load.LoadImageset` | util/load.py:27-35 | `IndexError` exactly when some row is empty; otherwise the names are sorted and a permutation of the rows' first fields |
| `Load.SortInPlace` | util/load.py:34 | `list.sort` leaves the array sorted and a permutation of what it held |
| `Load.InsertLast` | util/load.py:34 | inserting the next element keeps the prefix sorted and the contents unchanged as a multiset |
| `Load.Swap` | util/load.py:34 | exchanges two cells and nothing else |
| `Load.AdjacentSortedIsSorted` | util/load.py:34 | adjacent pairs in order means every pair in order |
| `Load.AdjacentChain` | util/load.py:34 | string order chains along an adjacently sorted list |
| `Load.SortedPermutationUnique` | util/load.py:34 | two sorted permutations of the same names are equal, so the sorted image set is unique |
| `Load.SortedSameHead` | util/load.py:34 | two sorted permutations start with the same name |
| `Load.SortedHeadIsLeast` | util/load.py:34 | the first name of a sorted list is the least |
| `Load.SortedTail` | util/load.py:34 | the tail of a sorted list is sorted |
| `Load.GetFilename` | util/load.py:92-95 | stem and extension concatenate to the basename of the path; the extension is empty or a `.`-led last suffix |
| `Load.StemsWithExt` | util/load.py:98-99 | the filter keeps at most one stem per entry |
| `Load.StemsWithExtMember` | util/load.py:98-99 | `x` is kept exactly when `x + ext` is a regular file of the listing and `x` has a stem |
| `Load.StemListed` | util/load.py:98-99 | membership, for one candidate stem |
| `Load.StemsWithExtAppend` | util/load.py:98-99 | the filter distributes over concatenated listings, so it keeps listing order |
| `Load.ListImgInDir` | util/load.py:97-100 | the `.jpg` regular files of the listing, by stem |
| `Load.ListCsvInDir` | util/load.py:102-105 | the `.csv` regular files of the listing, by stem |
| `Strings.PrefixBefore` | util/load.py:12 | `s.split(sep)[0]`: the longest prefix of `s` without `sep`, followed by `sep` when shorter than `s` |
| `Strings.PrefixBeforeJoined` | util/exp.py:90 | the text before the first separator of `a + sep + b` is `a` when `a` has no separator |
| `Strings.EndsWithIff` | util/exp.py:90 | `s.endswith(suffix)` holds exactly when `s` is some text followed by `suffix`, so it holds for every `x + suffix` |
| `Strings.RFind` | util/load.py:93-94 | `str.rfind`: the last index of the character, or -1 |
| `Strings.StrLeReflexive` | util/load.py:34 | string order is reflexive |
| `Strings.StrLeTotal` | util/load.py:34 | any two strings are comparable |
| `Strings.StrLeTransitive` | util/load.py:34 | string order is transitive |
| `Strings.StrLeAntisymmetric` | util/load.py:34 | strings ordered both ways are equal |
| `Numbers.DigitChar` | util/exp.py:79 | a digit value becomes a decimal digit |
| `Numbers.DigitValue` | util/exp.py:99 | a decimal digit has a value below 10 |
| `Numbers.NatToString` | util/exp.py:79 | `str(n)`: decimal digits without a leading zero, whose value is `n` |
| `Numbers.IntToString` | util/exp.py:79 | `str(e)`: for `e >= 0` digits without a leading zero whose value is `e`; for `e < 0` a minus sign and the digits of `-e` |
| `Numbers.ParseInt` | util/exp.py:99 | `int(s)` succeeds exactly when, after an optional `+` or `-`, one or more ASCII digits remain; the value is their decimal value, negated after `-`; any other text gives `ValueError` |
| `Numbers.DigitsValueLeadingZero` | util/exp.py:99 | a leading zero does not change a digit string's value |
| `Numbers.ParseIntOfIntToString` | util/exp.py:79-99 | `int(str(e)) == e` for every integer |
| `Numbers.ParseIntLeadingZeros` | util/exp.py:99 | `int` ignores leading zeros |
| `Numbers.ZeroPad2` | util/load.py:22 | `'{:02d}'.format(i)`: at least two digits, exactly two below 100, with value `i` |
| `Paths.JoinLayout` | util/exp.py:80 | `os.path.join(a, b)`: an absolute `b` is the result; otherwise the result starts with `a`, ends with `b`, has a `/` just before `b` when `a` is non-empty, and adds one only when `a` does not already end in `/` |
| `Paths.Basename` | util/load.py:93 | `os.path.basename`: the suffix after the last `/` |
| `Paths.SplitExt` | util/load.py:94 | `os.path.splitext`: root and extension concatenate to the path; a non-empty extension is a last `.` suffix preceded by a stem |
| `Paths.RFindAppendFree` | util/submit.py:103 | appending text without the character leaves its last index unchanged |
| `Paths.RFindPrefix` | util/submit.py:103 | the last index of a character is the same in a prefix that contains it |
| `Paths.SplitExtOfAppended` | util/submit.py:103 | `splitext(x + ext) == (x, ext)` when `x` has a stem |
| `Paths.SplitExtIff` | util/submit.py:103 | splitting off `ext` happens exactly when the root has a stem |
| `Paths.BasenameOfJoin` | util/submit.py:12 | the basename of `join(a, b)` is `b` for a plain name `b` |
| `Paths.JoinInjective` | util/exp.py:80-102 | joining one directory with different relative names gives different paths |
| `Dicts.Get` | util/submit.py:129 | lookup: absent exactly when no entry has the key, otherwise an entry's value |
| `Dicts.Put` | util/submit.py:129 | `d[k] = v`: `k` maps to `v`, other keys keep their values, a new key is appended and an old one keeps its place |
| `Dicts.PutKeepsDistinct` | util/submit.py:129 | assignment keeps the keys distinct |
| `Dicts.FromPairs` | run_rle.py:11-21 | the dictionary built by assigning pairs in turn from `{}` has distinct keys |
| `Dicts.LastWith` | util/submit.py:129 | the index of the last pair with a key, or -1 |
| `Dicts.FromPairsLastWins` | util/submit.py:117-129 | a key is present exactly when some pair has it, and it holds the value of the last such pair |
| `Dicts.FromPairsOfDict` | util/submit.py:94-129 | replaying a dictionary's entries in order rebuilds it |
| `Submit.GetPredDir` | util/submit.py:11-13 | the prediction directory ends in the saved-predictions directory name |
| `Submit.GetPredDirLayout` | util/submit.py:11-13 | it is output root, experiment name and directory name joined in that order |
| `Submit.SubmissionPath` | util/submit.py:89-92 | the table path lies under the experiment directory |
| `Submit.SubmissionPathBasename` | util/submit.py:92 | the table file is named `submission.csv` |
| `Submit.PredictionRows` | util/submit.py:94-96 | header `img,rle_mask`, then one row per entry in dictionary order: name + `.jpg` and the RLE unchanged |
| `Submit.SavePredictions` | util/submit.py:81-100 | writes those rows to `<output>/<exp>/submission.csv` and changes no other file |
| `Submit.RemoveExtension` | util/submit.py:102-103 | the result is the filename, or a prefix of it followed by an extension |
| `Submit.RemoveExtensionOfImgExt` | util/submit.py:95-103 | `remove_extension(x + '.jpg') == x` exactly when the last component of `x` has a non-dot character |
| `Submit.CheckHeader` | util/submit.py:123-126 | the first row passes exactly when its first two fields are `img` and `rle_mask` |
| `Submit.RowEntries` | util/submit.py:128-129 | each data row contributes `(remove_extension(row[0]), row[1])` |
| `Submit.ParsePredictions` | util/submit.py:117-129 | a table loads exactly when it is empty, or its header passes and every data row has two fields; failures are `IndexError` or `AssertionError`; a loaded dictionary has distinct keys and at most one entry per data row |
| `Submit.PredictionsOnDisk` | util/submit.py:114-129 | a missing table is `FileNotFoundError`; every failure is that, `IndexError` or `AssertionError`; a loaded dictionary has distinct keys |
| `Submit.LoadPredictions` | util/submit.py:105-133 | the row loop returns what `PredictionsOnDisk` specifies: `FileNotFoundError`, the header errors, `IndexError` for a short row, or the dictionary of the data rows |
| `Submit.ParseStep` | util/submit.py:128-129 | one more data row is one more assignment |
| `Submit.HeaderFails` | util/submit.py:123-126 | a first row that fails the header check makes loading fail with that check's error |
| `Submit.ShortRowFails` | util/submit.py:128-129 | under a good header, a data row with fewer than two fields makes loading fail with `IndexError` |
| `Submit.AllRowsParsed` | util/submit.py:117-129 | under a good header, data rows of two fields or more all load, as assignments in row order |
| `Submit.LoadRequiresHeader` | util/submit.py:123-126 | a non-empty table loads only if its header is `img,rle_mask` |
| `Submit.LoadedEntry` | util/submit.py:120-129 | every data row has two fields, and a key holds the RLE of the last row that strips to it |
| `Submit.HeaderNotLoaded` | util/submit.py:120-126 | the header row never becomes an entry |
| `Submit.ParsePredictionRows` | util/submit.py:94-129 | parsing the rows written for a dictionary gives that dictionary back, for names with a stem |
| `Submit.SaveThenLoad` | util/submit.py:81-133 | loading right after saving returns the saved dictionary |
| `Exp.CheckpointFileName` | util/exp.py:79 | a checkpoint file name is a sign or digits followed by `.pth.tar` |
| `Exp.ExpDirLayout` | util/exp.py:109 | the experiment directory ends with the experiment name and, for a relative name, starts with the output root |
| `Exp.SaveCheckpoint` | util/exp.py:67-83 | writes `(exp_name, epoch)` at `<output>/<exp>/<epoch>.pth.tar` and nothing else |
| `Exp.CheckpointFileNameRoundTrip` | util/exp.py:79-99 | a saved file name ends in `.pth.tar` and parses back to its epoch |
| `Exp.CheckpointFileNameInjective` | util/exp.py:79 | different epochs get different file names |
| `Exp.CheckpointNames` | util/exp.py:90 | no names exactly when no entry ends in `.pth.tar` |
| `Exp.ParseEpochs` | util/exp.py:99 | `ValueError` exactly when some name is not an integer; otherwise each name's integer |
| `Exp.MaxOf` | util/exp.py:101 | `max`: an element that no element exceeds |
| `Exp.MaxOfSameElements` | util/exp.py:101 | the maximum depends only on which epochs occur |
| `Exp.GetLatestCkpt` | util/exp.py:85-103 | `None` exactly when no entry ends in `.pth.tar`; `ValueError` exactly when some such entry's name is not an integer; otherwise the path built from the largest parsed epoch |
| `Exp.LatestCkptNormalisesEpoch` | util/exp.py:102 | `007.pth.tar` is looked up as `7.pth.tar` |
| `Exp.FileNamesOf` | util/exp.py:79 | the listing of saved checkpoints, one name per epoch |
| `Exp.CheckpointNamesAppend` | util/exp.py:90 | the name filter works entry by entry |
| `Exp.ParseEpochsAppend` | util/exp.py:99 | parsing epochs works name by name |
| `Exp.ParseSavedListing` | util/exp.py:79-99 | the epochs parsed from a listing of saved files are the saved epochs |
| `Exp.LatestOfSavedEpochs` | util/exp.py:79-103 | after saving epochs E, in any listing order, the latest checkpoint is that of max(E) |
| `Exp.GetNetwork` | util/exp.py:22-31 | the model is the experiment name up to its first `_`, or the whole name; `AttributeError` if no such class |
| `Exp.LoadCheckpoint` | util/exp.py:120-148 | fails exactly when the existing file records another experiment (`AssertionError`, checked first) or no model class has the name's prefix (`AttributeError`); otherwise the saved epoch if the file exists, else 0 |
| `Exp.LoadExp` | util/exp.py:105-118 | starts at one more than the saved epoch of the latest checkpoint, or at 1 |
| `Exp.LoadExpWithLatest` | util/exp.py:105-148 | with a known model class and a latest checkpoint of this experiment, or none on disk, loading resumes one epoch after the saved one |
| `Exp.ResumeFromLatest` | util/exp.py:105-148 | when the latest checkpoint is the file of epoch `e` and records this experiment, training resumes at `e + 1` |
| `Exp.FreshExperimentStartsAtOne` | util/exp.py:92-144 | a directory with no checkpoint starts at epoch 1 |
| `Exp.SavedCheckpointAt` | util/exp.py:72-82 | after saving epochs E, each saved epoch's file records that epoch |
| `Exp.FileNameIsRelative` | util/exp.py:79-80 | a checkpoint name never starts with `/` |
| `Exp.ResumeAfterSaves` | util/exp.py:67-148 | after saving epochs E, in any listing order, the experiment resumes at max(E) + 1 |
| `Exp.UnnormalisedNameStartsOver` | util/exp.py:102-144 | a checkpoint listed only as `007.pth.tar` is not found, and training starts over at 1 |
| `RunRle.Pairs` | run_rle.py:18-19 | the single name and RLE of each batch, in loader order |
| `RunRle.RleTable` | run_rle.py:10-21 | `AssertionError` exactly when some batch does not hold one name and one RLE; otherwise keys are distinct |
| `RunRle.ApplyRle` | run_rle.py:10-27 | the loop's result is that error, or the files after saving the table under `pred_dir` |
| `RunRle.PairsStep` | run_rle.py:21 | one more batch is one more assignment |
| `RunRle.RleTableEntry` | run_rle.py:18-21 | a name is a key exactly when some batch carries it, and it holds the RLE of the last such batch |
| `RunRle.RleTableKeysFromLoader` | run_rle.py:18-21 | every key is the name of some batch |
| `RunRle.ApplyRleThenLoad` | run_rle.py:26 | loading the saved submission gives back the table built, for names with a stem |

## Left out

- Image I/O in `util/load.py` is not modelled: `load_img`, `load_target`,
  `load_all_train_images`, `load_all_train_masks` and `get_img_shape` open images with PIL
  and build numpy arrays.
- `load_train_imageset` and `load_val_imageset` are not modelled. They use `const`, which
  `util/load.py` never imports, so each would raise `NameError`.
- `save_prob_map` and `save_ensembled_prob_map` are not modelled. They write numpy arrays
  cast to `int8`. `save_prob_map` first scales the probabilities by 100;
  `save_ensembled_prob_map` does not.
- `get_optimizer`, `get_criterion` and the optimizer and criterion parts of
  `load_checkpoint` are not modelled. They read a configuration file. `get_optimizer` looks
  the optimizer name up in `torch.optim`, and `get_criterion` looks the criterion name up
  in the project's `model.loss` module. Their own failures are not modelled either.
- Model and optimizer state dictionaries are not modelled. `torch.save` and `torch.load`
  keep only the experiment name and the epoch here.
- `setup_crayon` is a network client and is not modelled.
- `os.makedirs` and `create_dir_if_not_exist` are not modelled. The listing and the files
  are parameters.
- Printing and timing are not modelled.
- CSV quoting is not modelled: a table is already split into fields.
- `util/const.py`, `util/tile.py`, `util/augmentation.py`, `util/ensemble.py`,
  `rle_loader.py`, `model/` and `test.py` are not part of this model.
- Load.GetCarIds: Python returns `list(set(...))` in hash order, which is unspecified. The
  model returns first-occurrence order, and its contract speaks only of distinctness and
  of the set of ids.
- Numbers.ParseInt: accepts an optional sign and ASCII digits only. Python's `int` also
  accepts surrounding whitespace, `_` between digits and non-ASCII decimal digits.
- Exp.GetNetwork: the `getattr(unet, name)` lookup is a set of class names passed as a
  parameter.
