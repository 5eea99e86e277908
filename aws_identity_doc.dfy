/** Reading the instance identity document of an EC2 machine: a line-by-line scan for
    `key : value` lines, not a JSON parser, and lookups that fall back to "". */
module AwsIdentityDoc {
  import opened Wrappers
  import opened Strings
  import opened MapPuts

  const LineBreak: char := '\n'
  const Colon: char := ':'
  /** The characters removed from a key, and from a value. */
  const KeyStripped: set<char> := {'"', ' '}
  const ValueStripped: set<char> := {'"', ' ', ','}

  /** What one line puts: its two colon-separated parts, stripped, when there are exactly two. */
  function LinePair(line: string): Option<(string, string)>
  {
    var parts := Split(line, Colon);
    if |parts| != 2 then None
    else Some((RemoveChars(parts[0], KeyStripped), RemoveChars(parts[1], ValueStripped)))
  }

  /** A line counts exactly when it holds one colon; its key then has no quote or space and
      its value no quote, space or comma. */
  lemma LinePairCases(line: string)
    ensures LinePair(line).Some? <==> Count(line, Colon) == 1
    ensures LinePair(line).Some? ==>
      && (forall i :: 0 <= i < |LinePair(line).value.0| ==> LinePair(line).value.0[i] !in KeyStripped)
      && (forall i :: 0 <= i < |LinePair(line).value.1| ==> LinePair(line).value.1[i] !in ValueStripped)
  {
  }

  function LinePairs(lines: seq<string>): (ps: seq<Option<(string, string)>>)
    ensures |ps| == |lines|
  {
    seq(|lines|, i requires 0 <= i < |lines| => LinePair(lines[i]))
  }

  /** The map `parseAwsIdentityDocument` returns. */
  function Parse(doc: string): map<string, string>
  {
    PutAll(LinePairs(Split(doc, LineBreak)))
  }

  /** `parseAwsIdentityDocument`: splits on line breaks keeping empty lines, splits each line
      on ':' keeping empty parts, skips a line unless it has exactly two parts, and puts the
      stripped key and value. */
  method ParseAwsIdentityDocument(doc: string) returns (m: map<string, string>)
    ensures m == Parse(doc)
  {
    m := map[];
    var lines := Split(doc, LineBreak);
    for i := 0 to |lines|
      invariant m == PutAll(LinePairs(lines)[..i])
    {
      assert LinePairs(lines)[..i + 1][..i] == LinePairs(lines)[..i];
      var keyValuePair := Split(lines[i], Colon);
      if |keyValuePair| != 2 {
        continue;
      }
      var key := RemoveChars(keyValuePair[0], KeyStripped);
      var value := RemoveChars(keyValuePair[1], ValueStripped);
      m := m[key := value];
    }
    assert LinePairs(lines)[..|lines|] == LinePairs(lines);
  }

  /** No key of the result holds a quote or a space, and no value a quote, a space or a comma. */
  lemma ParseClean(doc: string, k: string)
    requires k in Parse(doc)
    ensures forall i :: 0 <= i < |k| ==> k[i] !in KeyStripped
    ensures forall i :: 0 <= i < |Parse(doc)[k]| ==> Parse(doc)[k][i] !in ValueStripped
  {
    var ps := LinePairs(Split(doc, LineBreak));
    PutAllEntry(ps, k);
    var i :| 0 <= i < |ps| && ps[i] == Some((k, Parse(doc)[k]));
    LinePairCases(Split(doc, LineBreak)[i]);
  }

  /** A key comes from a line with one colon, and the last such line with that key gives
      the value. */
  lemma ParseLastLineWins(doc: string, i: nat)
    requires i < |Split(doc, LineBreak)| && LinePair(Split(doc, LineBreak)[i]).Some?
    requires forall j :: i < j < |Split(doc, LineBreak)| ==>
      LinePair(Split(doc, LineBreak)[j]).None?
      || LinePair(Split(doc, LineBreak)[j]).value.0 != LinePair(Split(doc, LineBreak)[i]).value.0
    ensures var kv := LinePair(Split(doc, LineBreak)[i]).value;
      kv.0 in Parse(doc) && Parse(doc)[kv.0] == kv.1
  {
    PutAllLastWins(LinePairs(Split(doc, LineBreak)), i);
  }

  /** A document without a colon gives an empty map. */
  lemma ParseNoColon(doc: string)
    requires Colon !in doc
    ensures Parse(doc) == map[]
  {
    var lines := Split(doc, LineBreak);
    var ps := LinePairs(lines);
    forall i | 0 <= i < |ps| ensures ps[i].None? {
      if Colon in lines[i] {
        SplitPieceChars(doc, LineBreak, i, Colon);
      }
      SplitWithout(lines[i], Colon);
    }
    forall k | k in Parse(doc) ensures false {
      PutAllKeys(ps, k);
    }
  }

  /** `getValueFromAwsIdentityDocument`: "" when the document could not be read or lacks the
      key, and the stored value otherwise. */
  function GetValueFromAwsIdentityDocument(awsEnvVarMap: Option<map<string, string>>, key: string): (r: string)
    ensures awsEnvVarMap == None ==> r == ""
    ensures awsEnvVarMap.Some? && key !in awsEnvVarMap.value ==> r == ""
    ensures awsEnvVarMap.Some? && key in awsEnvVarMap.value ==> r == awsEnvVarMap.value[key]
  {
    match awsEnvVarMap
    case None => ""
    case Some(m) => if key in m then m[key] else ""
  }

  function GetAccountId(awsEnvVarMap: Option<map<string, string>>): string
  {
    GetValueFromAwsIdentityDocument(awsEnvVarMap, "accountId")
  }

  function GetRegion(awsEnvVarMap: Option<map<string, string>>): string
  {
    GetValueFromAwsIdentityDocument(awsEnvVarMap, "region")
  }

  function GetAvailabilityZone(awsEnvVarMap: Option<map<string, string>>): string
  {
    GetValueFromAwsIdentityDocument(awsEnvVarMap, "availabilityZone")
  }

  function GetInstanceId(awsEnvVarMap: Option<map<string, string>>): string
  {
    GetValueFromAwsIdentityDocument(awsEnvVarMap, "instanceId")
  }

  function GetMachineType(awsEnvVarMap: Option<map<string, string>>): string
  {
    GetValueFromAwsIdentityDocument(awsEnvVarMap, "instanceType")
  }

  /** The value of the last line of `lines` that puts `key`, or "" when no line puts it. */
  function LastValue(lines: seq<string>, key: string): (r: string)
    ensures (forall i :: 0 <= i < |lines| ==> LinePair(lines[i]).None? || LinePair(lines[i]).value.0 != key) ==> r == ""
    ensures forall i :: 0 <= i < |lines| && LinePair(lines[i]).Some? && LinePair(lines[i]).value.0 == key
                        && (forall j :: i < j < |lines| ==> LinePair(lines[j]).None? || LinePair(lines[j]).value.0 != key) ==>
              r == LinePair(lines[i]).value.1
  {
    if lines == [] then ""
    else
      var init := lines[..|lines| - 1];
      var last := LinePair(lines[|lines| - 1]);
      assert forall i :: 0 <= i < |init| ==> init[i] == lines[i];
      if last.Some? && last.value.0 == key then last.value.1 else LastValue(init, key)
  }

  /** Looking a key up in the parsed lines gives the value of the last line that puts it,
      or "" when none does. */
  lemma {:induction false} LookupLastValue(lines: seq<string>, key: string)
    ensures GetValueFromAwsIdentityDocument(Some(PutAll(LinePairs(lines))), key) == LastValue(lines, key)
  {
    if lines != [] {
      var init := lines[..|lines| - 1];
      assert LinePairs(lines)[..|lines| - 1] == LinePairs(init);
      LookupLastValue(init, key);
    }
  }

  /** The five getters, on the parsed document, give the value of the last line with the
      key accountId, region, availabilityZone, instanceId or instanceType, or "" when no line
      has it. */
  lemma GettersFromDocument(doc: string)
    ensures var lines := Split(doc, LineBreak);
      GetAccountId(Some(Parse(doc))) == LastValue(lines, "accountId")
      && GetRegion(Some(Parse(doc))) == LastValue(lines, "region")
      && GetAvailabilityZone(Some(Parse(doc))) == LastValue(lines, "availabilityZone")
      && GetInstanceId(Some(Parse(doc))) == LastValue(lines, "instanceId")
      && GetMachineType(Some(Parse(doc))) == LastValue(lines, "instanceType")
  {
    var lines := Split(doc, LineBreak);
    LookupLastValue(lines, "accountId");
    LookupLastValue(lines, "region");
    LookupLastValue(lines, "availabilityZone");
    LookupLastValue(lines, "instanceId");
    LookupLastValue(lines, "instanceType");
  }

  /** Without a document every getter gives "". */
  lemma GettersWithoutDocument()
    ensures GetAccountId(None) == "" && GetRegion(None) == "" && GetAvailabilityZone(None) == ""
    ensures GetInstanceId(None) == "" && GetMachineType(None) == ""
  {
  }
}
