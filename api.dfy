/**
 * The `/nifti2database` POST handler of nifti2database/api/main.py: the
 * ordered checks on the request body, the split of the `args` string into
 * an argument list, and the tail that resets the volume registry, runs the
 * workflow and reports whether it returned.
 *
 * The argument parser, the workflow and the logged report are outside the
 * model and come in as parameters; the workflow is handed the registry's
 * contents at the moment it is called and says what it leaves there.
 */
module Api {
  import opened JsonValues
  import opened Utils

  /** Python truthiness of a decoded request body (`not req_dict`). */
  predicate Truthy(j: Json)
  {
    match j
    case JNull => false
    case JBool(b) => b
    case JInt(i) => i != 0
    case JReal(r) => r != 0.0
    case JStr(s) => s != []
    case JArray(items) => items != []
    case JObject(fields) => fields != map[]
  }

  /** Python's `p in s` on strings: `p` occurs as a contiguous part of `s`. */
  predicate HasSubstring(s: string, p: string)
    decreases |s|
  {
    |p| <= |s| && (s[..|p|] == p || HasSubstring(s[1..], p))
  }

  /** The falsy request bodies are exactly null, false, zero and the empty string, list and object. */
  lemma FalsyValues(j: Json)
    ensures !Truthy(j) <==>
              j == JNull || j == JBool(false) || j == JInt(0) || j == JReal(0.0)
              || j == JStr("") || j == JArray([]) || j == JObject(map[])
  {
  }

  /** `p` sits in `s` at position `i`. */
  predicate OccursAt(s: string, p: string, i: nat)
  {
    i + |p| <= |s| && s[i..i + |p|] == p
  }

  /** `p` occurs in `s` exactly when it sits at some position of `s`. */
  lemma {:induction false} HasSubstringAt(s: string, p: string)
    ensures HasSubstring(s, p) <==> exists i: nat :: OccursAt(s, p, i)
    decreases |s|
  {
    if |p| <= |s| && s != [] {
      HasSubstringAt(s[1..], p);
      if HasSubstring(s, p) {
        if s[..|p|] == p {
          assert OccursAt(s, p, 0);
        } else {
          var i: nat :| OccursAt(s[1..], p, i);
          assert s[i + 1..i + 1 + |p|] == s[1..][i..i + |p|];
          assert OccursAt(s, p, i + 1);
        }
      }
      if exists i: nat :: OccursAt(s, p, i) {
        var i: nat :| OccursAt(s, p, i);
        if i > 0 {
          assert s[1..][i - 1..i - 1 + |p|] == s[i..i + |p|];
          assert OccursAt(s[1..], p, i - 1);
        }
      }
    } else if |p| <= |s| {
      assert OccursAt(s, p, 0);
    } else {
      assert forall i: nat :: !OccursAt(s, p, i);
    }
  }

  const ArgsKey := "args"
  const EmptyJson := "empty JSON"
  const ArgsMissing := "\"args\" key not in JSON"
  const ArgsNotString := "\"args\" is not a string"
  const BadSyntax := "\"args\" => bad syntax"
  const HttpOk := 200

  /** Position of the first space in `s`. */
  function FirstSpace(s: string): (i: nat)
    requires ' ' in s
    ensures i < |s| && s[i] == ' '
    ensures ' ' !in s[..i]
  {
    if s[0] == ' ' then 0
    else
      assert ' ' in s[1..] by { var k :| 0 <= k < |s| && s[k] == ' '; assert s[1..][k - 1] == ' '; }
      var i := 1 + FirstSpace(s[1..]);
      assert s[..i] == [s[0]] + s[1..][..i - 1];
      i
  }

  /**
   * `str.split(' ')`: the pieces between single spaces, so two adjacent
   * spaces give an empty piece and the empty string gives one empty piece.
   */
  function Split(s: string): (r: seq<string>)
    ensures |r| >= 1
    ensures forall i :: 0 <= i < |r| ==> ' ' !in r[i]
    decreases |s|
  {
    if ' ' !in s then [s]
    else
      var i := FirstSpace(s);
      [s[..i]] + Split(s[i + 1..])
  }

  /** `' '.join(ts)`. */
  function Join(ts: seq<string>): string
    requires |ts| >= 1
  {
    if |ts| == 1 then ts[0] else ts[0] + " " + Join(ts[1..])
  }

  /** Joining the pieces with single spaces gives back the split string. */
  lemma {:induction false} JoinSplit(s: string)
    ensures Join(Split(s)) == s
    decreases |s|
  {
    if ' ' in s {
      var i := FirstSpace(s);
      var rest := Split(s[i + 1..]);
      JoinSplit(s[i + 1..]);
      assert Split(s) == [s[..i]] + rest;
      assert Split(s)[1..] == rest;
      assert s == s[..i] + " " + s[i + 1..];
    }
  }

  /** In a piece without spaces followed by a space, that space is the first one. */
  lemma {:induction false} FirstSpaceAfterPiece(w: string, rest: string)
    requires ' ' !in w
    ensures ' ' in w + " " + rest && FirstSpace(w + " " + rest) == |w|
  {
    var s := w + " " + rest;
    assert s[|w|] == ' ';
    if w != [] {
      assert w[0] in w;
      assert s[1..] == w[1..] + " " + rest;
      assert ' ' !in w[1..] by { assert forall c :: c in w[1..] ==> c in w; }
      FirstSpaceAfterPiece(w[1..], rest);
    }
  }

  /** A piece without spaces followed by a space is the first piece. */
  lemma SplitAfterPiece(w: string, rest: string)
    requires ' ' !in w
    ensures Split(w + " " + rest) == [w] + Split(rest)
  {
    var s := w + " " + rest;
    FirstSpaceAfterPiece(w, rest);
    assert s[..|w|] == w && s[|w| + 1..] == rest;
  }

  /** Splitting pieces that hold no space, joined by single spaces, gives them back. */
  lemma {:induction false} SplitJoin(ts: seq<string>)
    requires |ts| >= 1
    requires forall i :: 0 <= i < |ts| ==> ' ' !in ts[i]
    ensures Split(Join(ts)) == ts
  {
    if |ts| > 1 {
      SplitJoin(ts[1..]);
      SplitAfterPiece(ts[0], Join(ts[1..]));
      assert ts == [ts[0]] + ts[1..];
    }
  }

  /** Two adjacent spaces give an empty piece between their neighbours. */
  lemma SplitDoubleSpace(a: string, b: string)
    requires ' ' !in a
    ensures Split(a + "  " + b) == [a, ""] + Split(b)
  {
    var empty: string := [];
    var inner := empty + " " + b;
    assert a + "  " + b == a + " " + inner;
    SplitAfterPiece(a, inner);
    SplitAfterPiece(empty, b);
    assert Split(a + "  " + b) == [a] + ([empty] + Split(b));
  }

  /** What the checks at the head of the handler decide about a request body. */
  datatype Verdict =
    | Rejected(reason: string)      // early return with this failure reason
    | Accepted(argsList: seq<string>)
    | Raised                        // a TypeError escapes the handler

  /**
   * Lines 44-68. The checks run in order and the first that fails alone gives
   * the reason. On a body that is not an object Python's `in` and `[...]` mean
   * something else: a string is searched for the substring "args", a list for
   * the element "args", and a boolean or number cannot be searched at all.
   */
  function Guard(req: Json): (v: Verdict)
    ensures !Truthy(req) ==> v == Rejected(EmptyJson)
    ensures req.JObject? && req.fields != map[] && ArgsKey !in req.fields ==> v == Rejected(ArgsMissing)
    ensures req.JObject? && ArgsKey in req.fields && !req.fields[ArgsKey].JStr? ==> v == Rejected(ArgsNotString)
    ensures req.JObject? && ArgsKey in req.fields && req.fields[ArgsKey].JStr? ==>
              v == Accepted(Split(req.fields[ArgsKey].s))
    ensures req.JArray? && req.items != [] ==> v == if JStr(ArgsKey) in req.items then Raised else Rejected(ArgsMissing)
    ensures req.JStr? && req.s != [] ==> v == if HasSubstring(req.s, ArgsKey) then Raised else Rejected(ArgsMissing)
    ensures Truthy(req) && (req.JBool? || req.JInt? || req.JReal?) ==> v == Raised
    ensures v.Accepted? ==> Join(v.argsList) == req.fields[ArgsKey].s
  {
    if !Truthy(req) then Rejected(EmptyJson)
    else match req
      case JObject(fields) =>
        if ArgsKey !in fields then Rejected(ArgsMissing)
        else if !fields[ArgsKey].JStr? then Rejected(ArgsNotString)
        else
          var s := fields[ArgsKey].s;
          JoinSplit(s);
          Accepted(Split(s))
      case JArray(items) => if JStr(ArgsKey) !in items then Rejected(ArgsMissing) else Raised
      case JStr(s) => if !HasSubstring(s, ArgsKey) then Rejected(ArgsMissing) else Raised
      case _ => Raised
  }

  /**
   * How the workflow call ended, with the volumes the registry holds
   * afterwards (the workflow registers every volume it creates).
   */
  datatype WorkflowResult =
    | Finished(returned: Option<string>, registered: seq<Volume>)  // None: it returned None, not a report
    | Failed(registered: seq<Volume>)                               // it raised

  /** The JSON dictionary the handler answers with; absent keys are None. */
  datatype Info<A> = Info(
    success: bool,
    inputRequestDict: Json,
    reason: Option<string>,
    usage: Option<string>,
    inputArgsList: Option<seq<string>>,
    args: Option<A>,
    report: Option<string>)

  /** An answer with its status code, or the server error of an escaped exception. */
  datatype Response<A> = Answer(status: int, info: Info<A>) | ServerError

  /**
   * The whole handler. Every answer has status 200 and echoes the request.
   * The registry is emptied just before the workflow is called, so the
   * workflow starts from an empty registry and leaves in it what it
   * registered. `success` is true exactly when the workflow returned. The
   * report is what it returned; when it raised, or returned no string (the
   * `in` test on the report then raises), the logged report replaces it,
   * and a logged report that cannot be read (None) is a server error.
   */
  method Run<A>(registry: VolumeRegistry, req: Json, parse: seq<string> -> Option<A>, usage: string,
                workflow: (A, seq<Volume>) -> WorkflowResult, loggedReport: Option<string>)
    returns (resp: Response<A>)
    modifies registry
    ensures resp.Answer? ==> resp.status == HttpOk && resp.info.inputRequestDict == req
    ensures Guard(req).Raised? ==> resp.ServerError? && registry.instances == old(registry.instances)
    ensures Guard(req).Rejected? ==>
              resp == Answer(HttpOk, Info(false, req, Some(Guard(req).reason), None, None, None, None))
              && registry.instances == old(registry.instances)
    ensures Guard(req).Accepted? && parse(Guard(req).argsList).None? ==>
              resp == Answer(HttpOk, Info(false, req, Some(BadSyntax), Some(usage), None, None, None))
              && registry.instances == old(registry.instances)
    ensures Guard(req).Accepted? && parse(Guard(req).argsList).Some? ==>
              var argsList := Guard(req).argsList;
              var args := parse(argsList).value;
              var outcome := workflow(args, []);
              var caught := !(outcome.Finished? && outcome.returned.Some?);
              && registry.instances == outcome.registered
              && (caught && loggedReport.None? ==> resp.ServerError?)
              && (!caught || loggedReport.Some? ==>
                    resp == Answer(HttpOk, Info(outcome.Finished?, req, None, None, Some(argsList), Some(args),
                                                Some(if caught then loggedReport.value else outcome.returned.value))))
  {
    match Guard(req)
    case Raised =>
      resp := ServerError;
    case Rejected(reason) =>
      resp := Answer(HttpOk, Info(false, req, Some(reason), None, None, None, None));
    case Accepted(argsList) =>
      var parsed := parse(argsList);
      if parsed.None? {
        resp := Answer(HttpOk, Info(false, req, Some(BadSyntax), Some(usage), None, None, None));
        return;
      }
      var args := parsed.value;
      registry.instances := [];
      var report := "";
      var success := false;
      var outcome := workflow(args, registry.instances);
      registry.instances := outcome.registered;
      var returnedReport := false;
      if outcome.Finished? {
        success := true;
        returnedReport := outcome.returned.Some?;
      }
      if returnedReport {
        report := outcome.returned.value;
      } else {
        if loggedReport.None? {
          // the report getter raises inside the handler of the first exception
          resp := ServerError;
          return;
        }
        report := loggedReport.value;
      }
      resp := Answer(HttpOk, Info(success, req, None, None, Some(argsList), Some(args), Some(report)));
  }
}
