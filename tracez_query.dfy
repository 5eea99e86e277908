/** The query-string reader of the tracez debug page: `&`-separated parameters, each split
    on `=` with Java's `split` (trailing empty parts dropped), no percent-decoding. */
module Tracez {
  import opened Wrappers
  import opened Strings
  import opened MapPuts

  /** What one parameter puts: parts 0 and 1 of its split on '=', or part 0 and "" when
      there is one part; `None` when the split is empty, where reading part 0 throws. */
  function ParamEntry(param: string): Option<(string, string)>
  {
    var pair := SplitJava(param, '=');
    if |pair| > 1 then Some((pair[0], pair[1]))
    else if |pair| == 1 then Some((pair[0], ""))
    else None
  }

  function ParamEntries(params: seq<string>): (ps: seq<Option<(string, string)>>)
    ensures |ps| == |params|
  {
    seq(|params|, i requires 0 <= i < |params| => ParamEntry(params[i]))
  }

  /** Putting every parameter in turn on an empty map: the first all-'=' parameter throws. */
  function PutParams(params: seq<string>): Result<map<string, string>>
  {
    if params == [] then Ok(map[])
    else
      match PutParams(params[..|params| - 1])
      case Err(e) => Err(e)
      case Ok(m) =>
        match ParamEntry(params[|params| - 1])
        case None => Err(IndexOutOfBounds(0))
        case Some(kv) => Ok(m[kv.0 := kv.1])
  }

  /** The result of `queryToMap` for the request's query (`None` for a null query). */
  function QueryToMapSpec(query: Option<string>): Result<map<string, string>>
  {
    match query
    case None => Ok(map[])
    case Some(q) => PutParams(SplitJava(q, '&'))
  }

  /** `queryToMap`, as written: a null query gives an empty map; otherwise each parameter is
      put in turn, and a parameter made only of '=' throws. */
  method QueryToMap(query: Option<string>) returns (r: Result<map<string, string>>)
    ensures r == QueryToMapSpec(query)
  {
    if query == None {
      return Ok(map[]);
    }
    var params := SplitJava(query.value, '&');
    var result: map<string, string> := map[];
    for i := 0 to |params|
      invariant PutParams(params[..i]) == Ok(result)
    {
      PutParamsStep(params, i, result);
      var pair := SplitJava(params[i], '=');
      if |pair| > 1 {
        assert ParamEntry(params[i]) == Some((pair[0], pair[1]));
        result := result[pair[0] := pair[1]];
      } else if |pair| == 1 {
        assert ParamEntry(params[i]) == Some((pair[0], ""));
        result := result[pair[0] := ""];
      } else {
        assert ParamEntry(params[i]) == None;
        PutParamsThrown(params[..i + 1], params[i + 1..]);
        assert params[..i + 1] + params[i + 1..] == params;
        return Err(IndexOutOfBounds(0));
      }
    }
    assert params[..|params|] == params;
    r := Ok(result);
  }

  /** One step of the fold: the parameter after a prefix that did not throw. */
  lemma PutParamsStep(params: seq<string>, i: nat, m: map<string, string>)
    requires i < |params| && PutParams(params[..i]) == Ok(m)
    ensures PutParams(params[..i + 1]) ==
      match ParamEntry(params[i])
      case None => Err(IndexOutOfBounds(0))
      case Some(kv) => Ok(m[kv.0 := kv.1])
  {
    assert params[..i + 1][..i] == params[..i];
  }

  /** Once a parameter has thrown, the later ones are never reached. */
  lemma {:induction false} PutParamsThrown(a: seq<string>, b: seq<string>)
    requires PutParams(a).Err?
    ensures PutParams(a + b) == PutParams(a)
  {
    if b != [] {
      assert (a + b)[..|a + b| - 1] == a + b[..|b| - 1];
      PutParamsThrown(a, b[..|b| - 1]);
    } else {
      assert a + b == a;
    }
  }

  /** The fold succeeds exactly when no parameter is made only of '=', and then it is the map
      of the puts, in order. */
  lemma {:induction false} PutParamsOk(params: seq<string>)
    ensures PutParams(params).Ok? <==> forall i :: 0 <= i < |params| ==> ParamEntry(params[i]).Some?
    ensures PutParams(params).Ok? ==> PutParams(params).value == PutAll(ParamEntries(params))
  {
    if params != [] {
      var init := params[..|params| - 1];
      PutParamsOk(init);
      assert ParamEntries(params)[..|params| - 1] == ParamEntries(init);
      assert forall i :: 0 <= i < |init| ==> init[i] == params[i];
    }
  }

  /** The key of a parameter is the text before its first '=', and the value the text
      between its first and second '=' ("" when there is none): later parts are ignored. */
  lemma ParamEntryParts(param: string)
    requires ParamEntry(param).Some?
    ensures ParamEntry(param).value.0 == Split(param, '=')[0]
    ensures ParamEntry(param).value.1 == if |Split(param, '=')| > 1 then Split(param, '=')[1] else ""
  {
    var parts := Split(param, '=');
    if '=' !in param {
      SplitWithout(param, '=');
    } else {
      CountIn(param, '=');
      var pair := DropTrailingEmpty(parts);
      assert pair[0] == parts[0];
      if |pair| == 1 {
        assert parts[1] == "";
      } else {
        assert pair[1] == parts[1];
      }
    }
  }

  /** Exactly the parameters made only of '=' make the lookup of part 0 throw. */
  lemma ParamEntryNone(param: string)
    ensures ParamEntry(param).None? <==> (param != [] && forall j :: 0 <= j < |param| ==> param[j] == '=')
  {
    SplitJavaEmpty(param, '=');
  }

  /** The name a parameter is put under is the text before its first '=' (for an all-'='
      parameter, the name the fix gives it). */
  lemma ParamName(param: string)
    ensures ParamEntryFixed(param).0 == Split(param, '=')[0]
  {
    if ParamEntry(param).Some? {
      ParamEntryParts(param);
    } else {
      ParamEntryNone(param);
      CountIn(param, '=');
      SplitAllEmpty(param, '=');
    }
  }

  /** When no parameter throws, every key of the result is the name of some parameter and
      every name is a key, and the last parameter with a given name supplies its value. */
  lemma PutParamsKeys(params: seq<string>, k: string)
    requires PutParams(params).Ok?
    ensures k in PutParams(params).value <==> exists i :: 0 <= i < |params| && Split(params[i], '=')[0] == k
    ensures forall i :: 0 <= i < |params| && Split(params[i], '=')[0] == k
                        && (forall j :: i < j < |params| ==> Split(params[j], '=')[0] != k) ==>
              k in PutParams(params).value && PutParams(params).value[k] == ParamEntryFixed(params[i]).1
  {
    PutParamsOk(params);
    var ps := ParamEntries(params);
    forall i | 0 <= i < |params| ensures ps[i].Some? && ps[i].value.0 == Split(params[i], '=')[0] {
      ParamName(params[i]);
    }
    PutAllKeys(ps, k);
    forall i | 0 <= i < |params| && Split(params[i], '=')[0] == k
               && (forall j :: i < j < |params| ==> Split(params[j], '=')[0] != k)
      ensures k in PutAll(ps) && PutAll(ps)[k] == ParamEntryFixed(params[i]).1
    {
      PutAllLastWins(ps, i);
    }
  }

  /** The source throws on the query "=" (as in a request for "/tracez?="), where the
      evident intent is an empty name with an empty value. */
  lemma BareEqualsThrows()
    ensures QueryToMapSpec(Some("=")) == Err(IndexOutOfBounds(0))
  {
    SplitWithout("=", '&');
    ParamEntryNone("=");
  }

  /** What a parameter puts, with the all-'=' case read as an empty name with an empty value. */
  function ParamEntryFixed(param: string): (kv: (string, string))
  {
    match ParamEntry(param)
    case Some(kv) => kv
    case None => ("", "")
  }

  function ParamEntriesFixed(params: seq<string>): (ps: seq<Option<(string, string)>>)
    ensures |ps| == |params|
  {
    seq(|params|, i requires 0 <= i < |params| => Some(ParamEntryFixed(params[i])))
  }

  /** `queryToMap` as evidently intended: never throws. */
  function QueryToMapFixed(query: Option<string>): map<string, string>
  {
    match query
    case None => map[]
    case Some(q) => PutAll(ParamEntriesFixed(SplitJava(q, '&')))
  }

  /** The intended contract holds of the fix: every parameter's name (the text before its
      first '=') is a key and every key is such a name. */
  lemma FixedKeys(params: seq<string>, k: string)
    ensures k in PutAll(ParamEntriesFixed(params)) <==> exists i :: 0 <= i < |params| && Split(params[i], '=')[0] == k
  {
    var ps := ParamEntriesFixed(params);
    forall i | 0 <= i < |params| ensures ps[i].Some? && ps[i].value.0 == Split(params[i], '=')[0] {
      ParamName(params[i]);
    }
    PutAllKeys(ps, k);
  }

  /** Wherever the source does not throw, the fix gives the same map. */
  lemma FixedAgrees(query: Option<string>)
    ensures QueryToMapSpec(query).Ok? ==> QueryToMapSpec(query).value == QueryToMapFixed(query)
  {
    if query.Some? && QueryToMapSpec(query).Ok? {
      var params := SplitJava(query.value, '&');
      PutParamsOk(params);
      assert ParamEntriesFixed(params) == ParamEntries(params);
    }
  }
}
