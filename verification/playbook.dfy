/**
  `execute_playbook` in helper.py: the ResourceProperties of a Create request
  become the playbook's extra variables. A property whose value is the
  one-entry object {"VMSeriesHelper::ConvertToEC2DNS": [ip, region]} is a
  function call that yields an EC2 public host name; such names are also
  collected for the reply's Data. After the run, the library's statistics
  and the IgnorePlaybookFailure flag give the verdict.
*/
module Playbook {
  import opened Wrappers
  import opened Values

  const CONVERT_TO_EC2_DNS := "VMSeriesHelper::ConvertToEC2DNS"
  const IGNORE_FAILURE := "IgnorePlaybookFailure"
  const KEY_FILENAME := "key_filename"
  const ARG_COUNT_REASON := "VMSeriesHelper::ConvertToEC2DNS requires 2 args"
  const OKEY_DOKEY := "okey dokey"
  const UNREACHABLE := "Ansible: Unreachable"
  const PLAYBOOK_FAILED := "Ansible: Playbook failed"

  // ---------------------------------------------------------------------
  // ConvertToEC2DNS
  // ---------------------------------------------------------------------

  /** How often `c` occurs in `s`. */
  function CountOf(s: string, c: char): nat
  {
    if |s| == 0 then 0 else (if s[0] == c then 1 else 0) + CountOf(s[1..], c)
  }

  /** `s.split(sep)`: the pieces between separators, empty pieces included. */
  function Split(s: string, sep: char): (r: seq<string>)
    ensures |r| >= 1
    ensures forall i :: 0 <= i < |r| ==> sep !in r[i]
    decreases |s|
  {
    if |s| == 0 then [""]
    else
      var rest := Split(s[1..], sep);
      if s[0] == sep then [""] + rest else [[s[0]] + rest[0]] + rest[1..]
  }

  /** There is one more piece than there are separators. */
  lemma {:induction false} SplitLength(s: string, sep: char)
    ensures |Split(s, sep)| == CountOf(s, sep) + 1
    decreases |s|
  {
    if |s| > 0 {
      SplitLength(s[1..], sep);
    }
  }

  /** Joining the pieces with the separator gives back the string. */
  lemma {:induction false} SplitJoin(s: string, sep: char)
    ensures Join(Split(s, sep), [sep]) == s
    decreases |s|
  {
    if |s| > 0 {
      SplitJoin(s[1..], sep);
      var rest := Split(s[1..], sep);
      if s[0] == sep {
        assert Split(s, sep) == [""] + rest;
        assert ([""] + rest)[1..] == rest;
        assert s == [sep] + s[1..];
      } else {
        var parts := Split(s, sep);
        assert parts == [[s[0]] + rest[0]] + rest[1..];
        if |rest| == 1 {
          assert s == [s[0]] + s[1..];
        } else {
          assert parts[1..] == rest[1..];
          assert Join(rest, [sep]) == rest[0] + [sep] + Join(rest[1..], [sep]);
          assert s == [s[0]] + s[1..];
        }
      }
    }
  }

  /** The first piece ends at the first separator. */
  lemma {:induction false} SplitFirst(a: string, sep: char, tail: string)
    requires sep !in a
    requires tail == [] || tail[0] == sep
    ensures Split(a + tail, sep)[0] == a
    ensures tail != [] ==> Split(a + tail, sep) == [a] + Split(tail[1..], sep)
    decreases |a|
  {
    if a == [] {
      assert a + tail == tail;
      if tail != [] {
        assert tail == [sep] + tail[1..];
      }
    } else {
      SplitFirst(a[1..], sep, tail);
      assert (a + tail)[1..] == a[1..] + tail;
      assert a == [a[0]] + a[1..];
    }
  }

  /** `ip.split('.')` followed by the host-name format, where `region` is
      inserted with `%s`. A non-string `ip` has no split (AttributeError);
      fewer than four dotted parts leave `toks[3]` out of range (IndexError). */
  function ConvertToEC2DNS(ip: Json, region: Json): (r: Result<string, PyError>)
    ensures r.Failure? <==> !ip.JStr? || CountOf(ip.s, '.') < 3
    ensures r.Failure? ==> r.error == (if ip.JStr? then IndexError else AttributeError)
  {
    if !ip.JStr? then Failure(AttributeError)
    else
      var toks := Split(ip.s, '.');
      SplitLength(ip.s, '.');
      if |toks| < 4 then Failure(IndexError)
      else Success("ec2-" + toks[0] + "-" + toks[1] + "-" + toks[2] + "-" + toks[3] + "."
                   + Str(region) + ".compute.amazonaws.com")
  }

  /** A piece followed by a separator splits off as the first piece. */
  lemma SplitCons(a: string, sep: char, rest: string)
    requires sep !in a
    ensures Split(a + [sep] + rest, sep) == [a] + Split(rest, sep)
  {
    SplitFirst(a, sep, [sep] + rest);
    assert ([sep] + rest)[1..] == rest;
    assert a + [sep] + rest == a + ([sep] + rest);
  }

  /** A dotted address a.b.c.d splits into at least four pieces, the first
      four being a, b, c and d. */
  lemma SplitDottedQuad(a: string, b: string, c: string, d: string, tail: string)
    requires '.' !in a && '.' !in b && '.' !in c && '.' !in d
    requires tail == [] || tail[0] == '.'
    ensures var toks := Split(a + "." + b + "." + c + "." + d + tail, '.');
      |toks| >= 4 && toks[0] == a && toks[1] == b && toks[2] == c && toks[3] == d
  {
    var s3 := d + tail;
    var s2 := c + "." + s3;
    var s1 := b + "." + s2;
    assert a + "." + b + "." + c + "." + d + tail == a + "." + s1;
    SplitCons(a, '.', s1);
    SplitCons(b, '.', s2);
    SplitCons(c, '.', s3);
    SplitFirst(d, '.', tail);
  }

  /** A dotted address a.b.c.d becomes ec2-a-b-c-d.<region>.compute.amazonaws.com;
      anything after a fifth dot is ignored. */
  lemma ConvertDottedQuad(a: string, b: string, c: string, d: string, tail: string, region: string)
    requires '.' !in a && '.' !in b && '.' !in c && '.' !in d
    requires tail == [] || tail[0] == '.'
    ensures ConvertToEC2DNS(JStr(a + "." + b + "." + c + "." + d + tail), JStr(region))
            == Success("ec2-" + a + "-" + b + "-" + c + "-" + d + "." + region + ".compute.amazonaws.com")
  {
    SplitDottedQuad(a, b, c, d, tail);
  }

  // ---------------------------------------------------------------------
  // Evaluating one property value
  // ---------------------------------------------------------------------

  /** `len(args)` and then `ip, region = args`: the values a call's argument
      unpacks into. A string unpacks into its characters, an object into its
      keys; len() of a number, a boolean or null raises TypeError. */
  function Arguments(args: Json): (r: Result<seq<Json>, PyError>)
    ensures r.Failure? <==> args.JNull? || args.JBool? || args.JNum?
    ensures r.Failure? ==> r.error == TypeError
    ensures args.JList? ==> r == Success(args.items)
    ensures args.JStr? ==> r.Success? && |r.value| == |args.s|
    ensures args.JObj? ==> r.Success? && |r.value| == |args.fields|
  {
    match args
    case JList(items) => Success(items)
    case JStr(s) => Success(Chars(s))
    case JObj(fields) => Success(Keys(fields))
    case _ => Failure(TypeError)
  }

  /** Iterating a string: its one-character strings. */
  function Chars(s: string): (r: seq<Json>)
    ensures |r| == |s|
  {
    if s == [] then [] else [JStr([s[0]])] + Chars(s[1..])
  }

  /** Iterating a dict: its keys. */
  function Keys(fields: Fields): (r: seq<Json>)
    ensures |r| == |fields|
  {
    if fields == [] then [] else [JStr(fields[0].0)] + Keys(fields[1..])
  }

  lemma {:induction false} CharsAt(s: string)
    ensures forall i :: 0 <= i < |s| ==> Chars(s)[i] == JStr([s[i]])
    decreases |s|
  {
    if s != [] {
      CharsAt(s[1..]);
    }
  }

  lemma {:induction false} KeysAt(fields: Fields)
    ensures forall i :: 0 <= i < |fields| ==> Keys(fields)[i] == JStr(fields[i].0)
    decreases |fields|
  {
    if fields != [] {
      KeysAt(fields[1..]);
    }
  }

  /** The values a string or an object unpacks into: its one-character
      strings, or its keys, in order. */
  lemma ArgumentsUnpack(args: Json)
    ensures args.JStr? ==> forall i :: 0 <= i < |args.s| ==> Arguments(args).value[i] == JStr([args.s[i]])
    ensures args.JObj? ==> forall i :: 0 <= i < |args.fields| ==> Arguments(args).value[i] == JStr(args.fields[i].0)
  {
    if args.JStr? {
      CharsAt(args.s);
    } else if args.JObj? {
      KeysAt(args.fields);
    }
  }

  /** A value of the form {"VMSeriesHelper::ConvertToEC2DNS": args}. */
  predicate IsConvertCall(v: Json)
  {
    v.JObj? && |v.fields| == 1 && v.fields[0].0 == CONVERT_TO_EC2_DNS
  }

  /** What the loop body does with one property value. */
  datatype Evaluated =
    | Literal(value: Json)       // stored unchanged
    | Converted(host: string)    // stored as the host name, also in the reply data
    | BadArgCount                // the early `return False, "... requires 2 args"`
    | Fault(error: PyError)      // an exception

  function Evaluate(v: Json): (r: Evaluated)
    ensures r.Literal? <==> !IsConvertCall(v)
    ensures r.Literal? ==> r.value == v
    ensures r.BadArgCount? <==>
              IsConvertCall(v) && Arguments(v.fields[0].1).Success? && |Arguments(v.fields[0].1).value| != 2
  {
    if IsConvertCall(v) then
      match Arguments(v.fields[0].1)
      case Failure(e) => Fault(e)
      case Success(xs) =>
        if |xs| != 2 then BadArgCount
        else
          match ConvertToEC2DNS(xs[0], xs[1])
          case Success(h) => Converted(h)
          case Failure(e) => Fault(e)
    else Literal(v)
  }

  /** A call whose argument is not a sequence raises TypeError; a call with
      two arguments stores the host name ConvertToEC2DNS gives, or raises
      its exception. */
  lemma EvaluateCall(v: Json)
    requires IsConvertCall(v)
    ensures Arguments(v.fields[0].1).Failure? ==> Evaluate(v) == Fault(TypeError)
    ensures Arguments(v.fields[0].1).Success? && |Arguments(v.fields[0].1).value| == 2 ==>
              var xs := Arguments(v.fields[0].1).value;
              && (Evaluate(v).Converted? <==> ConvertToEC2DNS(xs[0], xs[1]).Success?)
              && (Evaluate(v).Converted? ==> ConvertToEC2DNS(xs[0], xs[1]) == Success(Evaluate(v).host))
              && (Evaluate(v).Fault? ==> ConvertToEC2DNS(xs[0], xs[1]) == Failure(Evaluate(v).error))
  {
  }

  /** The loop body does not leave the loop. */
  predicate Resolvable(v: Json)
  {
    Evaluate(v).Literal? || Evaluate(v).Converted?
  }

  // ---------------------------------------------------------------------
  // The property loop
  // ---------------------------------------------------------------------

  datatype Resolution =
    | Resolved(extraVars: map<string, Json>, returnData: map<string, Json>)
    | ArgCountError
    | ResolveRaised(error: PyError)

  /** The loop over the properties, in iteration order, from accumulated
      `extra_vars` and `return_data`. */
  function ResolveFold(rest: Fields, extraVars: map<string, Json>, returnData: map<string, Json>): Resolution
    decreases |rest|
  {
    if rest == [] then Resolved(extraVars, returnData)
    else
      var k := rest[0].0;
      match Evaluate(rest[0].1)
      case Literal(x) => ResolveFold(rest[1..], extraVars[k := x], returnData)
      case Converted(h) => ResolveFold(rest[1..], extraVars[k := JStr(h)], returnData[k := JStr(h)])
      case BadArgCount => ArgCountError
      case Fault(e) => ResolveRaised(e)
  }

  /** The IgnorePlaybookFailure value `pop` returns, "no" when absent. */
  function IgnoreFlag(fields: Fields): (r: Json)
    ensures HasKey(fields, IGNORE_FAILURE) ==> (IGNORE_FAILURE, r) in fields
    ensures !HasKey(fields, IGNORE_FAILURE) ==> r == JStr("no")
  {
    Get(fields, IGNORE_FAILURE).GetOr(JStr("no"))
  }

  /** Pop the flag, run the loop, then set key_filename. */
  function ResolveProperties(keypath: string, fields: Fields): Resolution
  {
    match ResolveFold(Remove(fields, IGNORE_FAILURE), map[], map[])
    case Resolved(e, r) => Resolved(e[KEY_FILENAME := JStr(keypath)], r)
    case other => other
  }

  /** What the loop has done with one entry once it has run to the end. */
  predicate EntryResolved(entry: (string, Json), extraVars: map<string, Json>, returnData: map<string, Json>,
                          returnData0: map<string, Json>)
  {
    var k := entry.0;
    match Evaluate(entry.1)
    case Literal(x) => k in extraVars && extraVars[k] == x && (k in returnData <==> k in returnData0)
    case Converted(h) => k in extraVars && extraVars[k] == JStr(h) && k in returnData && returnData[k] == JStr(h)
    case _ => false
  }

  /** The loop stores every property under its own key, converted or
      unchanged, touches no other key, and only converted values reach the
      reply data. */
  lemma {:induction false} FoldResolved(rest: Fields, e: map<string, Json>, r: map<string, Json>)
    requires DistinctKeys(rest)
    requires ResolveFold(rest, e, r).Resolved?
    ensures var res := ResolveFold(rest, e, r);
      && (forall k :: k in res.extraVars <==> k in e || HasKey(rest, k))
      && (forall k :: k in res.returnData ==> k in r || HasKey(rest, k))
      && (forall k :: k in e && !HasKey(rest, k) ==> res.extraVars[k] == e[k])
      && (forall k :: k in r && !HasKey(rest, k) ==> k in res.returnData && res.returnData[k] == r[k])
      && (forall entry :: entry in rest ==> EntryResolved(entry, res.extraVars, res.returnData, r))
    decreases |rest|
  {
    if rest != [] {
      var k := rest[0].0;
      var tail := rest[1..];
      KeysOfTail(rest);
      match Evaluate(rest[0].1)
      case Literal(x) =>
        FoldResolved(tail, e[k := x], r);
      case Converted(h) =>
        FoldResolved(tail, e[k := JStr(h)], r[k := JStr(h)]);
    }
  }

  /** The loop runs to the end exactly when every value is a literal or a
      well-formed call. */
  lemma {:induction false} FoldResolvesIff(rest: Fields, e: map<string, Json>, r: map<string, Json>)
    ensures ResolveFold(rest, e, r).Resolved? <==> forall i :: 0 <= i < |rest| ==> Resolvable(rest[i].1)
    decreases |rest|
  {
    if rest != [] {
      var k := rest[0].0;
      var tail := rest[1..];
      assert forall i :: 1 <= i < |rest| ==> rest[i] == tail[i - 1];
      match Evaluate(rest[0].1)
      case Literal(x) =>
        FoldResolvesIff(tail, e[k := x], r);
      case Converted(h) =>
        FoldResolvesIff(tail, e[k := JStr(h)], r[k := JStr(h)]);
      case BadArgCount =>
      case Fault(_) =>
    }
  }

  /** The first value, in iteration order, that leaves the loop decides how:
      a call with the wrong argument count returns early, anything else
      raises. Later values are never looked at. */
  lemma {:induction false} FirstFailureDecides(rest: Fields, e: map<string, Json>, r: map<string, Json>, j: nat)
    requires j < |rest|
    requires forall i :: 0 <= i < j ==> Resolvable(rest[i].1)
    requires !Resolvable(rest[j].1)
    ensures ResolveFold(rest, e, r)
            == if Evaluate(rest[j].1).BadArgCount? then ArgCountError else ResolveRaised(Evaluate(rest[j].1).error)
    decreases j
  {
    if j > 0 {
      var k := rest[0].0;
      var tail := rest[1..];
      assert forall i :: 0 <= i < j - 1 ==> tail[i] == rest[i + 1];
      assert Resolvable(rest[0].1);
      match Evaluate(rest[0].1)
      case Literal(x) =>
        FirstFailureDecides(tail, e[k := x], r, j - 1);
      case Converted(h) =>
        FirstFailureDecides(tail, e[k := JStr(h)], r[k := JStr(h)], j - 1);
    }
  }

  /** The resolved variables: every property but IgnorePlaybookFailure under
      its own key, calls replaced by their host names, and key_filename set to
      the key path whatever the properties said; the reply data holds exactly
      the converted values. */
  lemma ResolvedProperties(keypath: string, fields: Fields)
    requires DistinctKeys(fields)
    requires ResolveProperties(keypath, fields).Resolved?
    ensures var res := ResolveProperties(keypath, fields);
      && res.extraVars[KEY_FILENAME] == JStr(keypath)
      && IGNORE_FAILURE !in res.extraVars && IGNORE_FAILURE !in res.returnData
      && (forall k :: k in res.extraVars <==> k == KEY_FILENAME || (HasKey(fields, k) && k != IGNORE_FAILURE))
      && (forall k :: k in res.returnData ==> HasKey(fields, k))
      && (forall entry :: entry in fields && entry.0 != IGNORE_FAILURE ==>
            match Evaluate(entry.1)
            case Literal(x) =>
              entry.0 !in res.returnData && (entry.0 != KEY_FILENAME ==> res.extraVars[entry.0] == x)
            case Converted(h) =>
              entry.0 in res.returnData && res.returnData[entry.0] == JStr(h) && (entry.0 != KEY_FILENAME ==> res.extraVars[entry.0] == JStr(h))
            case _ => false)
  {
    var entries := Remove(fields, IGNORE_FAILURE);
    FoldResolved(entries, map[], map[]);
    RemoveKeys(fields, IGNORE_FAILURE);
  }

  /** A property written as {"VMSeriesHelper::ConvertToEC2DNS": ["a.b.c.d", region]}
      reaches the playbook, and the reply data, as the EC2 host name under
      its own key. */
  lemma ConvertedPropertyStored(keypath: string, fields: Fields, k: string,
                                a: string, b: string, c: string, d: string, tail: string, region: string)
    requires DistinctKeys(fields)
    requires ResolveProperties(keypath, fields).Resolved?
    requires k != IGNORE_FAILURE && k != KEY_FILENAME
    requires '.' !in a && '.' !in b && '.' !in c && '.' !in d
    requires tail == [] || tail[0] == '.'
    requires (k, JObj([(CONVERT_TO_EC2_DNS, JList([JStr(a + "." + b + "." + c + "." + d + tail), JStr(region)]))]))
             in fields
    ensures var res := ResolveProperties(keypath, fields);
            var host := "ec2-" + a + "-" + b + "-" + c + "-" + d + "." + region + ".compute.amazonaws.com";
      && k in res.extraVars && res.extraVars[k] == JStr(host)
      && k in res.returnData && res.returnData[k] == JStr(host)
  {
    var ip := a + "." + b + "." + c + "." + d + tail;
    var call := JObj([(CONVERT_TO_EC2_DNS, JList([JStr(ip), JStr(region)]))]);
    ConvertDottedQuad(a, b, c, d, tail, region);
    assert Arguments(call.fields[0].1) == Success([JStr(ip), JStr(region)]);
    EvaluateCall(call);
    assert Evaluate(call) == Converted("ec2-" + a + "-" + b + "-" + c + "-" + d + "." + region + ".compute.amazonaws.com");
    ResolvedProperties(keypath, fields);
  }

  // ---------------------------------------------------------------------
  // The run and the verdict
  // ---------------------------------------------------------------------

  /** How the automation library's playbook run ended: its statistics
      reduced to the number of unreachable hosts (`dark`) and of hosts with
      failures, or an exception. */
  datatype RunnerOutcome = Completed(dark: nat, failures: nat) | RunnerRaised(error: PyError)

  /** What `execute_playbook` hands back: the usual triple, the pair of the
      early return, or an exception. */
  datatype PlaybookResult =
    | Returned3(success: bool, reason: string, data: Option<map<string, Json>>)
    | Returned2(success: bool, reason: string)
    | Raised(error: PyError)

  /** The verdict after a completed run. Only the exact string "yes" ignores
      failures; unreachable hosts are reported before failed ones. */
  function Verdict(ignore: Json, dark: nat, failures: nat, returnData: map<string, Json>): (r: PlaybookResult)
    ensures r.Returned3?
    ensures r.success <==> ignore == JStr("yes") || (dark == 0 && failures == 0)
    ensures r.success ==> r.reason == OKEY_DOKEY && r.data == Some(returnData)
    ensures !r.success ==> r.data == None
    ensures !r.success && dark != 0 ==> r.reason == UNREACHABLE
    ensures !r.success && dark == 0 ==> r.reason == PLAYBOOK_FAILED
  {
    if ignore == JStr("yes") then Returned3(true, OKEY_DOKEY, Some(returnData))
    else if dark != 0 then Returned3(false, UNREACHABLE, None)
    else if failures != 0 then Returned3(false, PLAYBOOK_FAILED, None)
    else Returned3(true, OKEY_DOKEY, Some(returnData))
  }

  /** Ignoring failures makes any completed run look like a clean one. */
  lemma IgnoreMeansClean(dark: nat, failures: nat, returnData: map<string, Json>)
    ensures Verdict(JStr("yes"), dark, failures, returnData) == Verdict(JStr("no"), 0, 0, returnData)
  {
  }

  /** `execute_playbook(keypath, pbvars)`: the variables the playbook ran
      with (None when it never ran) and what the function hands back. The
      properties must be a dict: `pop` with two arguments is a TypeError on a
      list and an AttributeError on anything else. */
  function ExecutePlaybookSpec(keypath: string, pbvars: Json, run: RunnerOutcome): (Option<map<string, Json>>, PlaybookResult)
  {
    match pbvars
    case JObj(fields) =>
      (match ResolveProperties(keypath, fields)
       case Resolved(extraVars, returnData) =>
         (Some(extraVars),
          match run
          case Completed(dark, failures) => Verdict(IgnoreFlag(fields), dark, failures, returnData)
          case RunnerRaised(e) => Raised(e))
       case ArgCountError => (None, Returned2(false, ARG_COUNT_REASON))
       case ResolveRaised(e) => (None, Raised(e)))
    case JList(_) => (None, Raised(TypeError))
    case _ => (None, Raised(AttributeError))
  }

  /** Properties that resolve are run with the resolved variables, and the
      result is the verdict, or the run's exception. */
  lemma ResolvedRun(keypath: string, pbvars: Json, run: RunnerOutcome)
    requires pbvars.JObj? && ResolveProperties(keypath, pbvars.fields).Resolved?
    ensures var res := ResolveProperties(keypath, pbvars.fields);
      ExecutePlaybookSpec(keypath, pbvars, run)
        == (Some(res.extraVars),
            if run.Completed? then Verdict(IgnoreFlag(pbvars.fields), run.dark, run.failures, res.returnData)
            else Raised(run.error))
  {
  }

  /** Properties that are not an object, or that raise in the loop, never
      run and hand back the exception. */
  lemma FaultyPropertiesRaise(keypath: string, pbvars: Json, run: RunnerOutcome)
    requires !pbvars.JObj? || ResolveProperties(keypath, pbvars.fields).ResolveRaised?
    ensures ExecutePlaybookSpec(keypath, pbvars, run).0 == None
    ensures ExecutePlaybookSpec(keypath, pbvars, run).1.Raised?
  {
  }

  /** Properties that are not an object, or that do not resolve, never run,
      and what comes back is not the usual triple. */
  lemma UnresolvedNeverRuns(keypath: string, pbvars: Json, run: RunnerOutcome)
    requires !pbvars.JObj? || !ResolveProperties(keypath, pbvars.fields).Resolved?
    ensures ExecutePlaybookSpec(keypath, pbvars, run).0 == None
    ensures !ExecutePlaybookSpec(keypath, pbvars, run).1.Returned3?
  {
  }

  /** A call with the wrong argument count, reached before any other bad
      value, ends `execute_playbook` with the pair before any run. */
  lemma ArgCountStopsRun(keypath: string, fields: Fields, run: RunnerOutcome, j: nat)
    requires var entries := Remove(fields, IGNORE_FAILURE);
      && j < |entries|
      && (forall i :: 0 <= i < j ==> Resolvable(entries[i].1))
      && Evaluate(entries[j].1).BadArgCount?
    ensures ExecutePlaybookSpec(keypath, JObj(fields), run) == (None, Returned2(false, ARG_COUNT_REASON))
  {
    FirstFailureDecides(Remove(fields, IGNORE_FAILURE), map[], map[], j);
  }

  /** A two-argument call whose address has fewer than four dotted parts
      raises IndexError. */
  lemma ShortAddressFault(ip: string, region: Json)
    requires CountOf(ip, '.') < 3
    ensures Evaluate(JObj([(CONVERT_TO_EC2_DNS, JList([JStr(ip), region]))])) == Fault(IndexError)
  {
    var call := JObj([(CONVERT_TO_EC2_DNS, JList([JStr(ip), region]))]);
    assert Arguments(call.fields[0].1) == Success([JStr(ip), region]);
    EvaluateCall(call);
  }

  /** A call whose address has fewer than four dotted parts, reached before
      any other bad value, makes `execute_playbook` raise IndexError before
      any run. */
  lemma ShortAddressRaises(keypath: string, fields: Fields, run: RunnerOutcome, j: nat, ip: string, region: Json)
    requires var entries := Remove(fields, IGNORE_FAILURE);
      && j < |entries|
      && (forall i :: 0 <= i < j ==> Resolvable(entries[i].1))
      && entries[j].1 == JObj([(CONVERT_TO_EC2_DNS, JList([JStr(ip), region]))])
      && CountOf(ip, '.') < 3
    ensures ExecutePlaybookSpec(keypath, JObj(fields), run) == (None, Raised(IndexError))
  {
    ShortAddressFault(ip, region);
    FirstFailureDecides(Remove(fields, IGNORE_FAILURE), map[], map[], j);
  }

  /** The playbook runs exactly when every property (but the flag) is a
      literal or a well-formed call. */
  lemma RunsIffResolvable(keypath: string, fields: Fields, run: RunnerOutcome)
    ensures ExecutePlaybookSpec(keypath, JObj(fields), run).0.Some?
            <==> forall entry :: entry in fields && entry.0 != IGNORE_FAILURE ==> Resolvable(entry.1)
  {
    var entries := Remove(fields, IGNORE_FAILURE);
    FoldResolvesIff(entries, map[], map[]);
    assert (forall i :: 0 <= i < |entries| ==> Resolvable(entries[i].1))
           <==> (forall entry :: entry in entries ==> Resolvable(entry.1));
  }

  /** One turn of the loop, at entry `i`. */
  lemma FoldAt(entries: Fields, i: nat, e: map<string, Json>, r: map<string, Json>)
    requires i < |entries|
    ensures var k := entries[i].0;
            ResolveFold(entries[i..], e, r)
              == match Evaluate(entries[i].1)
                 case Literal(x) => ResolveFold(entries[i + 1..], e[k := x], r)
                 case Converted(h) => ResolveFold(entries[i + 1..], e[k := JStr(h)], r[k := JStr(h)])
                 case BadArgCount => ArgCountError
                 case Fault(err) => ResolveRaised(err)
  {
    assert entries[i..][1..] == entries[i + 1..];
  }

  /** The `for k,v in pbvars.iteritems()` loop: fills extra_vars and
      return_data entry by entry, and stops at the first call with the wrong
      argument count or the first exception. */
  method ResolveLoop(entries: Fields) returns (res: Resolution)
    ensures res == ResolveFold(entries, map[], map[])
  {
    var returnData: map<string, Json> := map[];
    var extraVars: map<string, Json> := map[];
    var i := 0;
    while i < |entries|
      invariant 0 <= i <= |entries|
      invariant ResolveFold(entries[i..], extraVars, returnData) == ResolveFold(entries, map[], map[])
    {
      var k := entries[i].0;
      var v := entries[i].1;
      FoldAt(entries, i, extraVars, returnData);
      var ev := Evaluate(v);
      if ev.BadArgCount? {
        return ArgCountError;
      } else if ev.Fault? {
        return ResolveRaised(ev.error);
      }
      if ev.Converted? {
        v := JStr(ev.host);
        returnData := returnData[k := v];
      }
      extraVars := extraVars[k := v];
      i := i + 1;
    }
    assert entries[i..] == [];
    res := Resolved(extraVars, returnData);
  }

  /** The imperative `execute_playbook`: pop the flag, run the property
      loop (which may return or raise early), set key_filename, run the
      playbook, decide. */
  method ExecutePlaybook(keypath: string, pbvars: Json, run: RunnerOutcome)
    returns (ran: Option<map<string, Json>>, result: PlaybookResult)
    ensures (ran, result) == ExecutePlaybookSpec(keypath, pbvars, run)
  {
    ran := None;
    if !pbvars.JObj? {
      result := Raised(if pbvars.JList? then TypeError else AttributeError);
      return;
    }
    var ignore := IgnoreFlag(pbvars.fields);
    var loop := ResolveLoop(Remove(pbvars.fields, IGNORE_FAILURE));
    match loop
    case ArgCountError =>
      result := Returned2(false, ARG_COUNT_REASON);
    case ResolveRaised(e) =>
      result := Raised(e);
    case Resolved(extraVars, returnData) =>
      ran := Some(extraVars[KEY_FILENAME := JStr(keypath)]);
      match run
      case RunnerRaised(e) =>
        result := Raised(e);
      case Completed(dark, failures) =>
        result := Verdict(ignore, dark, failures, returnData);
  }
}
