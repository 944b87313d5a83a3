# nifti2database — a Dafny model of its core

nifti2database reads NIfTI images and their JSON sidecars (the BIDS
parameters of each scan) and has them ready for ingestion into a database.
It can be driven from the command line or over HTTP. This project models
four small pieces of it and proves what they promise:

- **Volume enrichment** (`nifti2database/utils.py`). Every volume holds a
  parameter map (`seqparam`) and a map of classification fields
  (`bidsfields`).
  - `read_all_nifti_header` writes `Matrix`, `Resolution` and `FoV` from
    the image header into each volume's parameter map.
  - `concat_bidsfields_to_seqparam` merges the classification fields into
    the parameter map.
  - Volumes are a `class` whose `seqparam` field the two methods update in
    place, one volume at a time. Each method is proved against a function on
    maps (`WithGeometry`, `Merge`), and the functions carry the key-set,
    "written keys / untouched keys" and content facts.
- **Command-line arguments** (`nifti2database/cli.py`). `format_args` reshapes
  `in_dir` into a flat list of absolute paths and forces `out_dir` to
  `/tmp/`. It is a method on a mutable `Namespace`. The parser set up by
  `get_parser` gives `logfile` a default; that is modelled as the fold over
  the `--logfile` / `--no-logfile` occurrences.
- **The HTTP handler** `POST /nifti2database` (`nifti2database/api/main.py`).
  - A guard chain on the decoded request body, in order: empty, `args`
    missing, `args` not a string.
  - The split of `args` on single spaces.
  - The tail that empties the volume registry, calls the workflow, and
    reports whether it returned and what it reported.
  - The guards are a pure function (`Guard`). Python's `in` and indexing are
    modelled for every JSON shape a body can have, not only objects. The
    whole handler is a method (`Run`) that works on the registry object.
- **Version extraction** in `setup.py`. The version is the third
  whitespace-separated word of the metadata file's first line, stripped of
  single quotes. It is modelled as a function on the line.

Files: `json.dfy` (JSON values, Option), `utils.dfy`, `cli.dfy`, `api.dfy`,
`setup.dfy`.

Scan grouping, value collapsing, numeric rounding and deduplication are
not implemented in `utils.py`, `cli.py`, `api/main.py` or `setup.py`, so
none of that is modelled.

## Model

| member | source | states |
|---|---|---|
| Utils.MatrixItems | nifti2database/utils.py:19-24 | `list(matrix)` keeps the shape's length and order: entry i is the integer shape[i] |
| Utils.ResolutionItems | nifti2database/utils.py:20-25 | the voxel sizes keep their length and order, each passed through the rounding |
| Utils.Extent | nifti2database/utils.py:21 | one FoV entry before truncation, `mx*res`: the voxel count times the voxel size |
| Utils.FovProducts | nifti2database/utils.py:21 | `zip` stops at the shorter input (length is the minimum); entry i is shape[i] times zooms[i] |
| Utils.Trunc | nifti2database/utils.py:26 | `int()` on a number: the floor for a non-negative value, minus the floor of the negation otherwise (its bounds are TruncTowardZero) |
| Utils.TruncItems | nifti2database/utils.py:26 | `int()` is applied to every product, keeping length and order |
| Utils.TruncTowardZero | nifti2database/utils.py:26 | `int()` on a number drops its fractional part toward zero, for positive and negative values |
| Utils.FovItems | nifti2database/utils.py:21-26 | FoV has length min(len(shape), len(zooms)); entry i is shape[i]*zooms[i] truncated toward zero |
| Utils.WithGeometry | nifti2database/utils.py:19-31 | the new key set is the old one plus Matrix, Resolution and FoV; every other key keeps its value; the contents of the three written keys, element by element |
| Utils.WithGeometryIdempotent | nifti2database/utils.py:29-31 | writing the same header's geometry a second time changes nothing |
| Utils.ReadNiftiHeader | nifti2database/utils.py:16-31 | one volume's parameter map becomes WithGeometry of its old map and the header at its path; only that volume's `seqparam` changes |
| Utils.ReadAllNiftiHeader | nifti2database/utils.py:12-31 | every listed volume's parameter map becomes WithGeometry of its old map and the header at its path; a volume listed twice ends the same; only `seqparam` fields change and `bidsfields` stay as they were |
| Utils.Merge | nifti2database/utils.py:37 | `dict.update`: the key set is the union; every classification key maps to its classification value; other parameter keys keep their values |
| Utils.MergeIdempotent | nifti2database/utils.py:37 | merging the same fields twice equals merging them once |
| Utils.ConcatBidsfieldsToSeqparam | nifti2database/utils.py:35-37 | every listed volume's parameter map becomes Merge of its old map with its classification fields; `bidsfields` are unchanged |
| Cli.Shape | nifti2database/cli.py:16-19 | a single string becomes a one-element list; a one-element list of a list is unwrapped one level; any other value keeps its shape |
| Cli.AbsPaths | nifti2database/cli.py:20 | the comprehension succeeds exactly when every element is a string; the result keeps length and order, with each element passed through abspath |
| Cli.FormatInDir | nifti2database/cli.py:16-20 | the final in_dir exists exactly when the shaped value is a list of strings; it then has the shaped list's length and order, each entry the abspath of the shaped entry |
| Cli.FormatInDirTwice | nifti2database/cli.py:16-20 | formatting a formatted in_dir again succeeds, keeps its length and only applies abspath once more to each entry |
| Cli.FormatArgs | nifti2database/cli.py:13-25 | the same namespace is returned; it raises exactly when FormatInDir fails; on success in_dir is the formatted list and out_dir is `/tmp/` whatever it was; on a raise in_dir keeps its reshaped value and out_dir is untouched; logfile never changes |
| Cli.ResolveLogfile | nifti2database/cli.py:62-70 | with neither flag, logfile is False; otherwise it is True exactly when the last flag given is `--logfile` |
| Api.Truthy | nifti2database/api/main.py:44 | Python truthiness of the decoded body, as `not req_dict` tests it |
| Api.FalsyValues | nifti2database/api/main.py:44 | the bodies that count as empty are exactly null, false, 0, 0.0, the empty string, the empty list and the empty object |
| Api.HasSubstring | nifti2database/api/main.py:52 | `'args' in s` on a string body |
| Api.HasSubstringAt | nifti2database/api/main.py:52 | HasSubstring holds exactly when the pattern occurs at some position of the string |
| Api.FirstSpace | nifti2database/api/main.py:68 | the position found holds a space and no earlier position does |
| Api.Split | nifti2database/api/main.py:68 | `split(' ')` gives at least one piece, and no piece holds a space |
| Api.JoinSplit | nifti2database/api/main.py:68 | joining the pieces with single spaces gives back the original string |
| Api.FirstSpaceAfterPiece | nifti2database/api/main.py:68 | in a space-free piece followed by a space, that space is the first one |
| Api.SplitAfterPiece | nifti2database/api/main.py:68 | a space-free piece followed by a space splits off as the first piece |
| Api.SplitJoin | nifti2database/api/main.py:68 | space-free pieces joined by single spaces split back into exactly those pieces |
| Api.SplitDoubleSpace | nifti2database/api/main.py:68 | two consecutive spaces give an empty piece between their neighbours |
| Api.Guard | nifti2database/api/main.py:42-68 | the guards run in order and the first that fails alone gives the reason: falsy gives 'empty JSON'; a non-empty object without `args` gives the missing-key reason; an `args` that is not a string gives the not-a-string reason; otherwise the body is accepted with the split of `args`, and those pieces joined reproduce it; on a list, a string or a number the handler raises or rejects as Python's `in` and indexing dictate |
| Api.Run | nifti2database/api/main.py:39-100 | every answer has status 200 and echoes the request; each early path's exact answer (reason, usage); the workflow is called on the emptied registry and the registry then holds what the workflow registered; success is True exactly when the workflow returned; the report is the returned string, or the logged report when the workflow raised or returned no string (the `in` test at line 89 then raises); a guard that raises, or a logged report that cannot be read, is a server error; on early returns the registry is untouched |
| Setup.IsSpace | setup.py:5 | the whitespace characters of argument-less `str.split()` |
| Setup.WordLength | setup.py:5 | the first word's length: the prefix is space-free and is followed by whitespace or the end |
| Setup.Words | setup.py:5 | `str.split()` gives only non-empty, whitespace-free words |
| Setup.LeadingQuotes | setup.py:5 | `lstrip("'")` removes exactly the quotes before the first other character |
| Setup.TrailingQuotes | setup.py:5 | `rstrip("'")` removes exactly the quotes after the last other character |
| Setup.StripQuotes | setup.py:5 | the result is a middle part of the word framed by quotes alone and neither starts nor ends with a quote |
| Setup.NoSpaceSlice | setup.py:5 | a slice of a whitespace-free word is whitespace-free |
| Setup.StripQuotesNoSpace | setup.py:5 | stripping quotes from a whitespace-free word leaves it whitespace-free |
| Setup.ExtractVersion | setup.py:4-5 | IndexError exactly when the line has fewer than three words; a version has no whitespace and neither starts nor ends with a quote |
| Setup.WordsAfterWord | setup.py:5 | a word followed by whitespace or the end is the first word of the line |
| Setup.WordLengthOf | setup.py:5 | the first word's length is that of the space-free prefix ended by whitespace |
| Setup.WordsAfterSpace | setup.py:5 | a leading whitespace character adds no word |
| Setup.WordsAfterBlank | setup.py:5 | any run of leading whitespace adds no word |
| Setup.WordsAfterWordAndBlank | setup.py:5 | a word, then a non-empty run of whitespace: the word comes first and the run adds no word |
| Setup.WordsOfLayout | setup.py:5 | words separated by any non-empty runs of whitespace and followed by whitespace or nothing split back into exactly those words |
| Setup.VersionOfWords | setup.py:4-5 | any line of at least three words, with any whitespace before, between and after them, gives the third word stripped of quotes; later words are ignored |
| Setup.StripQuotesOfQuoted | setup.py:5 | stripping the quotes added around a value that neither starts nor ends with one gives the value back |
| Setup.MetadataLayout | setup.py:4 | the metadata line is the words `__version__`, `=` and the quoted version, one space apart, then a newline |
| Setup.VersionOfMetadataLine | setup.py:4-5 | the line `__version__ = '<v>'` with its newline gives `<v>` for any whitespace-free `<v>` without quotes at its ends |
| Setup.VersionOfShippedLine | setup.py:4-5 | the shipped line `__version__ = '0.0.1'` gives `0.0.1` |

## Left out

- Utils.ResolutionItems: `np.round(resolution, 3).astype(float)` (nifti2database/utils.py:25) is a floating-point rounding. It is the caller-supplied function `round3`; only that each rounded size is written in order is stated.
- Utils.FovProducts: the products are exact reals, not IEEE floats. A float product that lands just below an integer could truncate to one less than the model says.
- Utils.ReadAllNiftiHeader: `nibabel.load` and the header getters (nifti2database/utils.py:16-20) read a file. They are the total parameter `load`, from path to shape and zooms, so a file that cannot be read is not modelled.
- Cli.AbsPaths: `os.path.abspath` depends on the working directory. It is the uninterpreted parameter `abspath`.
- The rest of `get_parser` is not modelled: `--in_dir` parsing, `--version`, help layout and option abbreviation. `metadata.get_nifti2database_version` is not part of this model. `main` is plain wiring.
- Cli.AbsPaths: elements that are bytes or an `os.PathLike` (such as a `pathlib.Path`) are not represented; the model has only strings as paths and makes every other element raise, where `os.path.abspath` (through `os.fspath`) would accept those.
- Cli.FormatInDir: a shaped `in_dir` that holds bytes or `os.PathLike` elements, or that is an iterable other than a list (a tuple, dict or set, whose iteration Python allows at line 20), is not represented; the model makes it fail, where line 20 would succeed.
- Cli.FormatArgs: for the same values it reports a raise, where `format_args` would return with `in_dir` converted and `out_dir` set to `/tmp/`. The value `PyOther` stands for every `in_dir` value that is neither a string nor a list.
- Api.Run: the parser, its usage text, the workflow and the logged report are parameters.
  - The workflow is a function from the parsed arguments and the registry it starts from to its outcome, which carries the registry it leaves.
  - A workflow that raises is `Failed`; one that returns None instead of a report is `Finished` with no string.
  - A report getter that raises is `None`.
- Api.Run: the value of the `complete` flag (nifti2database/api/main.py:85, 89) is never read and is not modelled. The TypeError its `in` test raises on a report that is not a string is modelled.
- Api.Run: in this version of the repository, `workflow.run` (nifti2database/workflow.py:15) takes no `sysexit` argument, workflow.py:11 imports a `get_logger` that `utils.py` does not define, and `utils.py` defines no `get_report`. So for a parsed request the workflow call raises (an ImportError or AttributeError from that import, or a TypeError from the extra argument), and the report read then raises an AttributeError. That is the model's `Failed` with a `None` report: a server error. The model keeps both as parameters so that the handler's logic is stated for a workflow that does accept the call.
- Flask routing, the `/` and `/help` pages, template rendering, `json.dumps` and the `ContentType` header are web plumbing and are not modelled. An answer is the Info record plus its status.
- Api.Guard: JSON numbers that Python decodes as NaN or infinity are not modelled.
- nifti2database/decision_tree.py is not part of this model. Its handlers are empty stubs, and its driver depends on pandas grouping, an external slicer and `eval` dispatch.
- nifti2database/workflow.py is not part of this model: file-system traversal, logging, timing and `sys.exit`.
- template_request.py is not part of this model: it is a live database query.
- setup.py: the file reads and the `setuptools.setup` call are build tooling. Only the version expression at line 5 is modelled.
