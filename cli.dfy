/**
 * Command-line argument handling of nifti2database/cli.py: the shaping of
 * `in_dir` into a flat list of absolute paths and the override of `out_dir`
 * done by `format_args`, and the `logfile` default set up by `get_parser`.
 */
module Cli {
  import opened JsonValues

  /**
   * The Python values `in_dir` can hold, as far as this model tells them
   * apart: a string, a list, or any other value (None, a number, ...), which
   * the model treats as neither iterable nor a path. Bytes, `os.PathLike`
   * objects and iterables other than lists (tuple, dict, set) are not
   * represented; they would all be `PyOther`.
   */
  datatype PyObj = PyStr(s: string) | PyList(items: seq<PyObj>) | PyOther

  /** The parsed-arguments namespace; it has no `out_dir` until `format_args` adds one. */
  class Namespace {
    var inDir: PyObj
    var outDir: Option<PyObj>
    var logfile: bool
  }

  /** The fixed output directory `format_args` forces. */
  const TmpDir := "/tmp/"

  /**
   * Lines 16-19: a single string is wrapped into a one-element list, then a
   * one-element list whose element is a list is replaced by that element.
   */
  function Shape(inDir: PyObj): (r: PyObj)
    ensures inDir.PyStr? ==> r == PyList([inDir])
    ensures inDir.PyList? && |inDir.items| == 1 && inDir.items[0].PyList? ==> r == inDir.items[0]
    ensures inDir.PyList? && !(|inDir.items| == 1 && inDir.items[0].PyList?) ==> r == inDir
    ensures inDir.PyOther? ==> r == inDir
  {
    var wrapped := if inDir.PyStr? then PyList([inDir]) else inDir;
    if wrapped.PyList? && |wrapped.items| == 1 && wrapped.items[0].PyList? then wrapped.items[0] else wrapped
  }

  /**
   * Line 20 on a list: every element passed through `abspath`, in order.
   * In this model an element that is not a string makes `abspath` raise
   * (None); the path-like elements Python also accepts are not represented.
   */
  function AbsPaths(items: seq<PyObj>, abspath: string -> string): (r: Option<seq<PyObj>>)
    ensures r.Some? <==> forall i :: 0 <= i < |items| ==> items[i].PyStr?
    ensures r.Some? ==> |r.value| == |items|
    ensures r.Some? ==> forall i :: 0 <= i < |items| ==> r.value[i] == PyStr(abspath(items[i].s))
  {
    if items == [] then Some([])
    else if !items[0].PyStr? then None
    else
      var rest := AbsPaths(items[1..], abspath);
      assert forall i :: 1 <= i < |items| ==> items[1..][i - 1] == items[i];
      if rest.None? then None else Some([PyStr(abspath(items[0].s))] + rest.value)
  }

  /** The `in_dir` that `format_args` leaves, or None when it raises. */
  function FormatInDir(inDir: PyObj, abspath: string -> string): (r: Option<seq<PyObj>>)
    ensures r.None? <==> !Shape(inDir).PyList? || exists i :: 0 <= i < |Shape(inDir).items| && !Shape(inDir).items[i].PyStr?
    ensures r.Some? ==> Shape(inDir).PyList? && |r.value| == |Shape(inDir).items|
    ensures r.Some? ==> forall i :: 0 <= i < |r.value| ==> r.value[i] == PyStr(abspath(Shape(inDir).items[i].s))
  {
    match Shape(inDir)
    case PyList(items) => AbsPaths(items, abspath)
    case _ => None
  }

  /**
   * Formatting an already formatted `in_dir` keeps its shape: each entry
   * only goes through `abspath` once more.
   */
  lemma FormatInDirTwice(inDir: PyObj, abspath: string -> string)
    requires FormatInDir(inDir, abspath).Some?
    ensures var once := FormatInDir(inDir, abspath).value;
            var twice := FormatInDir(PyList(once), abspath);
            twice.Some? && |twice.value| == |once| &&
            forall i :: 0 <= i < |once| ==> twice.value[i] == PyStr(abspath(once[i].s))
  {
    var once := FormatInDir(inDir, abspath).value;
    assert Shape(PyList(once)) == PyList(once) by {
      if |once| == 1 { assert once[0].PyStr?; }
    }
  }

  /**
   * `format_args`: the namespace is updated in place and returned. On success
   * `in_dir` is the flat list of absolute paths and `out_dir` is `/tmp/`; when
   * a path conversion raises, `in_dir` keeps its reshaped value and `out_dir`
   * is untouched. `logfile` never changes.
   */
  method FormatArgs(args: Namespace, abspath: string -> string) returns (result: Namespace, raised: bool)
    modifies args`inDir, args`outDir
    ensures result == args
    ensures raised <==> FormatInDir(old(args.inDir), abspath).None?
    ensures !raised ==> args.inDir == PyList(FormatInDir(old(args.inDir), abspath).value)
    ensures !raised ==> args.outDir == Some(PyStr(TmpDir))
    ensures raised ==> args.inDir == Shape(old(args.inDir)) && args.outDir == old(args.outDir)
    ensures args.logfile == old(args.logfile)
  {
    result := args;
    if args.inDir.PyStr? {
      args.inDir := PyList([args.inDir]);
    }
    if args.inDir.PyList? && |args.inDir.items| == 1 && args.inDir.items[0].PyList? {
      args.inDir := args.inDir.items[0];
    }
    if !args.inDir.PyList? {
      // iterating over a value that is not a list raises
      return result, true;
    }
    var items := args.inDir.items;
    var paths: seq<PyObj> := [];
    var i := 0;
    while i < |items|
      invariant 0 <= i <= |items|
      invariant forall k :: 0 <= k < i ==> items[k].PyStr?
      invariant |paths| == i
      invariant forall k :: 0 <= k < i ==> paths[k] == PyStr(abspath(items[k].s))
    {
      if !items[i].PyStr? {
        return result, true;
      }
      paths := paths + [PyStr(abspath(items[i].s))];
      i := i + 1;
    }
    args.inDir := PyList(paths);
    args.outDir := Some(PyStr(TmpDir));
    raised := false;
  }

  /** The two options that share the `logfile` destination. */
  datatype LogfileFlag = StoreTrue | StoreFalse

  /**
   * The `logfile` value the parser of `get_parser` produces from the
   * `--logfile` (StoreTrue) and `--no-logfile` (StoreFalse) occurrences on
   * the command line, in order: it starts at the default False and each
   * occurrence overwrites it, so the last one decides.
   */
  method ResolveLogfile(flags: seq<LogfileFlag>) returns (logfile: bool)
    ensures flags == [] ==> !logfile
    ensures logfile <==> flags != [] && flags[|flags| - 1] == StoreTrue
  {
    logfile := false;
    for i := 0 to |flags|
      invariant logfile <==> i > 0 && flags[i - 1] == StoreTrue
    {
      logfile := flags[i] == StoreTrue;
    }
  }
}
