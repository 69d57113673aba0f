/** Claim-to-header mappings: the inline `claim:header,...` parser, the
    abstract outcome of loading the mapping file, and the merge and fatal
    policy of `getClaimMappings`. */
module Claims {
  import opened Outcomes
  import opened Strings
  import opened Env
  import Config

  type Table = map<string, string>

  // ---------------------------------------------------------------------
  // One fragment of the inline string

  /** A fragment the parser accepts: an empty one (skipped) or one with a ':'. */
  predicate WellFormed(f: string)
  {
    f == "" || ':' in f
  }

  /** Everything before the last ':' of a fragment. */
  function FragmentKey(f: string): string
    requires ':' in f
  {
    f[..LastIndex(f, ':')]
  }

  /** Everything after the last ':' of a fragment. */
  function FragmentValue(f: string): string
    requires ':' in f
  {
    f[LastIndex(f, ':') + 1..]
  }

  /** A fragment is its key, a ':', and a ':'-free value ... */
  lemma FragmentSplit(f: string)
    requires ':' in f
    ensures f == FragmentKey(f) + ":" + FragmentValue(f)
    ensures ':' !in FragmentValue(f)
  {
  }

  /** ... and that decomposition is the only one: the value is what
      follows the LAST ':'. */
  lemma FragmentSplitUnique(f: string, key: string, value: string)
    requires f == key + ":" + value && ':' !in value
    ensures ':' in f && FragmentKey(f) == key && FragmentValue(f) == value
  {
    assert f[|key|] == ':';
    assert f[|key| + 1..] == value;
    LastIndexAt(f, ':', |key|);
  }

  // ---------------------------------------------------------------------
  // The fragment loop of fromString, as a specification

  /** The table after the loop and, if it stopped early, the fragment
      it stopped at. */
  datatype Parsed = Parsed(table: Table, malformed: Option<string>)

  /** The loop of `fromString` over `frags`, writing into `m`: empty
      fragments are skipped, a fragment without ':' ends the loop with
      that fragment as the error, any other fragment stores its value
      under its key. */
  function ApplyFragments(m: Table, frags: seq<string>): Parsed
    decreases |frags|
  {
    if |frags| == 0 then Parsed(m, None)
    else if |frags[0]| == 0 then ApplyFragments(m, frags[1..])
    else if LastIndex(frags[0], ':') == -1 then Parsed(m, Some(frags[0]))
    else ApplyFragments(m[FragmentKey(frags[0]) := FragmentValue(frags[0])], frags[1..])
  }

  /** `fromString(val)` on a map holding `m`. */
  function ParseInline(m: Table, val: string): Parsed
  {
    ApplyFragments(m, Split(val, ','))
  }

  /** One step of the loop, for a fragment followed by `rest`. */
  lemma ApplyFirst(m: Table, f: string, rest: seq<string>)
    ensures ApplyFragments(m, [f] + rest) ==
              if f == "" then ApplyFragments(m, rest)
              else if ':' !in f then Parsed(m, Some(f))
              else ApplyFragments(m[FragmentKey(f) := FragmentValue(f)], rest)
  {
  }

  /** The entries the inline string writes, on their own. */
  function InlineWrites(val: string): Table
  {
    ParseInline(map[], val).table
  }

  /** Index of the first fragment the parser rejects (|frags| if none). */
  function FirstMalformed(frags: seq<string>): (i: nat)
    ensures i <= |frags|
    ensures forall j :: 0 <= j < i ==> WellFormed(frags[j])
    ensures i < |frags| ==> !WellFormed(frags[i])
  {
    if |frags| == 0 then 0
    else if !WellFormed(frags[0]) then 0
    else 1 + FirstMalformed(frags[1..])
  }

  /** The parse writes its entries over whatever the map held: the result
      is the starting map overlaid with the writes the fragments make on an
      empty map, and whether it stops early does not depend on the map. */
  lemma {:induction false} ApplyOverlay(m: Table, n: Table, frags: seq<string>)
    ensures ApplyFragments(m + n, frags).table == m + ApplyFragments(n, frags).table
    ensures ApplyFragments(m + n, frags).malformed == ApplyFragments(n, frags).malformed
    decreases |frags|
  {
    if |frags| > 0 && |frags[0]| > 0 && LastIndex(frags[0], ':') != -1 {
      var k, v := FragmentKey(frags[0]), FragmentValue(frags[0]);
      assert (m + n)[k := v] == m + n[k := v];
      ApplyOverlay(m, n[k := v], frags[1..]);
    } else if |frags| > 0 && |frags[0]| == 0 {
      ApplyOverlay(m, n, frags[1..]);
    }
  }

  lemma ParseOverlay(m: Table, val: string)
    ensures ParseInline(m, val) == Parsed(m + InlineWrites(val), ParseInline(map[], val).malformed)
  {
    ApplyOverlay(m, map[], Split(val, ','));
    assert m + map[] == m;
  }

  /** The parse stops at the first fragment without ':' and reports it;
      what it leaves is what the fragments before it wrote, and no later
      fragment is applied. It succeeds exactly when every fragment is empty
      or has a ':'. */
  lemma {:induction false} StopsAtFirstMalformed(m: Table, frags: seq<string>)
    ensures ApplyFragments(m, frags[..FirstMalformed(frags)]).malformed == None
    ensures ApplyFragments(m, frags).table == ApplyFragments(m, frags[..FirstMalformed(frags)]).table
    ensures ApplyFragments(m, frags).malformed ==
              if FirstMalformed(frags) < |frags| then Some(frags[FirstMalformed(frags)]) else None
    decreases |frags|
  {
    if |frags| > 0 && WellFormed(frags[0]) {
      var i := FirstMalformed(frags);
      var rest := frags[1..];
      assert frags[..i][1..] == rest[..FirstMalformed(rest)];
      if |frags[0]| == 0 {
        StopsAtFirstMalformed(m, rest);
      } else {
        StopsAtFirstMalformed(m[FragmentKey(frags[0]) := FragmentValue(frags[0])], rest);
      }
    }
  }

  /** A key that no applied fragment names keeps its old entry (or its
      absence). */
  lemma {:induction false} UntouchedKeys(m: Table, frags: seq<string>, k: string)
    requires forall j :: 0 <= j < FirstMalformed(frags) && ':' in frags[j] ==> FragmentKey(frags[j]) != k
    ensures k in ApplyFragments(m, frags).table <==> k in m
    ensures k in m ==> ApplyFragments(m, frags).table[k] == m[k]
    decreases |frags|
  {
    if |frags| > 0 && WellFormed(frags[0]) {
      var rest := frags[1..];
      forall j | 0 <= j < FirstMalformed(rest) && ':' in rest[j] ensures FragmentKey(rest[j]) != k {
        assert rest[j] == frags[j + 1];
      }
      if |frags[0]| == 0 {
        UntouchedKeys(m, rest, k);
      } else {
        UntouchedKeys(m[FragmentKey(frags[0]) := FragmentValue(frags[0])], rest, k);
      }
    }
  }

  /** The last applied fragment naming a key decides its value: later
      fragments overwrite earlier ones. */
  lemma {:induction false} LastFragmentWins(m: Table, frags: seq<string>, j: nat)
    requires j < FirstMalformed(frags) && ':' in frags[j]
    requires forall j' :: j < j' < FirstMalformed(frags) && ':' in frags[j'] ==>
               FragmentKey(frags[j']) != FragmentKey(frags[j])
    ensures FragmentKey(frags[j]) in ApplyFragments(m, frags).table
    ensures ApplyFragments(m, frags).table[FragmentKey(frags[j])] == FragmentValue(frags[j])
    decreases |frags|
  {
    var rest := frags[1..];
    var k := FragmentKey(frags[j]);
    if j == 0 {
      forall i | 0 <= i < FirstMalformed(rest) && ':' in rest[i] ensures FragmentKey(rest[i]) != k {
        assert rest[i] == frags[i + 1];
      }
      UntouchedKeys(m[k := FragmentValue(frags[0])], rest, k);
    } else {
      assert rest[j - 1] == frags[j];
      forall i | j - 1 < i < FirstMalformed(rest) && ':' in rest[i] ensures FragmentKey(rest[i]) != k {
        assert rest[i] == frags[i + 1];
      }
      if |frags[0]| == 0 {
        LastFragmentWins(m, rest, j - 1);
      } else {
        LastFragmentWins(m[FragmentKey(frags[0]) := FragmentValue(frags[0])], rest, j - 1);
      }
    }
  }

  /** Applying the same inline string a second time changes nothing. */
  lemma ParseIdempotent(m: Table, val: string)
    ensures ParseInline(ParseInline(m, val).table, val) == ParseInline(m, val)
  {
    ParseOverlay(m, val);
    ParseOverlay(m + InlineWrites(val), val);
    assert m + InlineWrites(val) + InlineWrites(val) == m + InlineWrites(val);
  }

  /** An empty string and a string of commas parse cleanly and write nothing. */
  lemma EmptyFragmentsSkipped(m: Table)
    ensures ParseInline(m, "") == Parsed(m, None)
    ensures ParseInline(m, ",,") == Parsed(m, None)
  {
    assert Split(",,", ',') == ["", "", ""] by {
      assert ",," == "" + [','] + "" + [','] + "";
      SplitAfterHead("", ',', ",");
      assert "," == "" + [','] + "";
      SplitAfterHead("", ',', "");
    }
    ApplyFirst(m, "", ["", ""]);
    ApplyFirst(m, "", [""]);
    ApplyFirst(m, "", []);
    assert [""] + [] == [""];
    assert [""] + [""] == ["", ""];
    assert [""] + ["", ""] == ["", "", ""];
  }

  /** A single fragment `key:value` whose value has no ':' stores `value`
      under `key`, whatever `key` contains. */
  lemma SingleFragment(m: Table, key: string, value: string)
    requires ',' !in key && ',' !in value && ':' !in value
    ensures ParseInline(m, key + ":" + value) == Parsed(m[key := value], None)
  {
    var f := key + ":" + value;
    assert ',' !in f by {
      forall i | 0 <= i < |f| ensures f[i] != ',' {
        if i < |key| { assert f[i] == key[i]; }
        else if i > |key| { assert f[i] == value[i - |key| - 1]; }
      }
    }
    SplitWithoutSeparator(f, ',');
    FragmentSplitUnique(f, key, value);
    ApplyFirst(m, f, []);
  }

  /** "a:b:c" stores "c" under "a:b"; "a:" stores "" under "a". */
  lemma SplitsOnLastColon(m: Table)
    ensures ParseInline(m, "a:b:c") == Parsed(m["a:b" := "c"], None)
    ensures ParseInline(m, "a:") == Parsed(m["a" := ""], None)
  {
    SingleFragment(m, "a:b", "c");
    assert "a:b" + ":" + "c" == "a:b:c";
    SingleFragment(m, "a", "");
    assert "a" + ":" + "" == "a:";
  }

  /** After a well-formed first fragment, a fragment without ':' is an
      error: the first entry stays written, and nothing after the bad
      fragment is applied. */
  lemma MalformedAfterEntry(m: Table, key: string, value: string, bad: string, tail: string)
    requires ',' !in key && ',' !in value && ':' !in value
    requires bad != "" && ',' !in bad && ':' !in bad
    ensures ParseInline(m, key + ":" + value + "," + bad + "," + tail) == Parsed(m[key := value], Some(bad))
  {
    var f := key + ":" + value;
    assert ',' !in f by {
      forall i | 0 <= i < |f| ensures f[i] != ',' {
        if i < |key| { assert f[i] == key[i]; }
        else if i > |key| { assert f[i] == value[i - |key| - 1]; }
      }
    }
    var rest := bad + [','] + tail;
    SplitAfterHead(bad, ',', tail);
    SplitAfterHead(f, ',', rest);
    assert key + ":" + value + "," + bad + "," + tail == f + [','] + rest;
    FragmentSplitUnique(f, key, value);
    ApplyFirst(m, f, [bad] + Split(tail, ','));
    ApplyFirst(m[key := value], bad, Split(tail, ','));
  }

  /** "nocolon" alone is an error that writes nothing; in "a:b,bad,c:d" the
      entry a:b stays written and c:d is never applied. */
  lemma MalformedKeepsEarlierWrites(m: Table)
    ensures ParseInline(m, "nocolon") == Parsed(m, Some("nocolon"))
    ensures ParseInline(m, "a:b,bad,c:d") == Parsed(m["a" := "b"], Some("bad"))
  {
    SplitWithoutSeparator("nocolon", ',');
    ApplyFirst(m, "nocolon", []);
    MalformedAfterEntry(m, "a", "b", "bad", "c:d");
    assert "a" + ":" + "b" + "," + "bad" + "," + "c:d" == "a:b,bad,c:d";
  }

  // ---------------------------------------------------------------------
  // The mapping file, taken as an outcome

  /** What loading the mapping file did: decoded a flat JSON object, or
      failed, after the decoder had already stored `written` (empty when the
      file could not be opened). */
  datatype FileOutcome =
    | Decoded(entries: Table)
    | Failed(written: Table, reason: string)
  {
    function Written(): Table
    {
      if Decoded? then entries else written
    }
  }

  /** The mapping being built, shared by `fromFile` and `fromString`,
      which both write into it in place. */
  class ClaimMappings {
    var entries: Table

    constructor ()
      ensures entries == map[]
    {
      entries := map[];
    }

    /** `fromFile`: the decoder's writes land on top of the current entries. */
    method FromFile(outcome: FileOutcome) returns (err: Option<string>)
      modifies this
      ensures entries == old(entries) + outcome.Written()
      ensures err == (if outcome.Failed? then Some(outcome.reason) else None)
    {
      entries := entries + outcome.Written();
      err := if outcome.Failed? then Some(outcome.reason) else None;
    }

    /** `fromString`: split on ',', skip empty fragments, split each other
        fragment on its last ':' and store the value under the key; stop at
        the first fragment without ':' and return it, keeping the entries
        already written. */
    method FromString(val: string) returns (err: Option<string>)
      modifies this
      ensures Parsed(entries, err) == ParseInline(old(entries), val)
    {
      var mappings := Split(val, ',');
      var i := 0;
      while i < |mappings|
        invariant 0 <= i <= |mappings|
        invariant ApplyFragments(entries, mappings[i..]) == ParseInline(old(entries), val)
      {
        var mapping := mappings[i];
        assert mappings[i..][1..] == mappings[i + 1..];
        if |mapping| == 0 {
          i := i + 1;
          continue;
        }
        var lastInd := LastIndex(mapping, ':');
        if lastInd == -1 {
          err := Some(mapping);
          return;
        }
        var key := mapping[..lastInd];
        var value := mapping[lastInd + 1..];
        entries := entries[key := value];
        i := i + 1;
      }
      err := None;
    }
  }

  // ---------------------------------------------------------------------
  // getClaimMappings

  /** The merge and fatal policy: file entries first, inline entries on top
      (inline wins on a shared key); startup aborts only when the file
      failed AND the inline string has a malformed fragment. A failing
      source contributes whatever it wrote before failing. */
  function ResolveClaimMappings(file: FileOutcome, inline: string): (r: Result<Table>)
    ensures r.Failure? <==> file.Failed? && ParseInline(map[], inline).malformed.Some?
    ensures r.Failure? ==> r.error == NoUsableClaimMappingSource
    ensures r.Success? ==> r.value == file.Written() + InlineWrites(inline)
  {
    ParseOverlay(file.Written(), inline);
    var parsed := ParseInline(file.Written(), inline);
    if parsed.malformed.Some? && file.Failed? then Failure(NoUsableClaimMappingSource)
    else Success(parsed.table)
  }

  /** The path `getClaimMappings` opens: CLAIM_MAPPING_FILE_PATH, or
      config.json when that is unset or empty. */
  function MappingFilePath(env: Environment): (path: string)
    ensures path == Get(Config.NewConfig().claimMappingFilePath, env).value
    ensures Getenv(env, Config.ClaimMappingFileEnv) == "" ==> path == "config.json"
  {
    var p := Getenv(env, Config.ClaimMappingFileEnv);
    if p != "" then p else Config.ClaimMappingFileDefault
  }

  /** `getClaimMappings`: a fresh map, the file loaded into it, then the
      CLAIM_MAPPINGS string parsed into it; `readFile` is what opening and
      decoding a path yields. */
  method GetClaimMappings(env: Environment, readFile: string -> FileOutcome) returns (r: Result<Table>)
    ensures r == ResolveClaimMappings(readFile(MappingFilePath(env)), Getenv(env, Config.ClaimMappingsEnv))
  {
    var c := Config.NewConfig();
    var claimMappings := new ClaimMappings();
    var path := Get(c.claimMappingFilePath, env).value;
    var errFile := claimMappings.FromFile(readFile(path));
    assert claimMappings.entries == readFile(path).Written();
    var inline := Get(c.claimMappings, env).value;
    var errString := claimMappings.FromString(inline);
    if errString.Some? {
      if errFile.Some? {
        return Failure(NoUsableClaimMappingSource);
      }
    }
    ParseOverlay(readFile(path).Written(), inline);
    return Success(claimMappings.entries);
  }

  /** An unreadable file with CLAIM_MAPPINGS unset gives an empty table,
      not an abort: "" parses cleanly. */
  lemma UnreadableFileAndUnsetInline(reason: string)
    ensures ResolveClaimMappings(Failed(map[], reason), "") == Success(map[])
  {
  }

  /** A file mapping sub to X-User and the inline string "sub:X-Other"
      resolve to sub mapped to X-Other. */
  lemma InlineOverridesFile()
    ensures ResolveClaimMappings(Decoded(map["sub" := "X-User"]), "sub:X-Other") == Success(map["sub" := "X-Other"])
  {
    SingleFragment(map[], "sub", "X-Other");
    assert "sub" + ":" + "X-Other" == "sub:X-Other";
    assert map["sub" := "X-User"] + map["sub" := "X-Other"] == map["sub" := "X-Other"];
  }

  /** One failing source alone is not fatal: a bad inline string leaves the
      file's entries plus the inline writes made before the bad fragment; a
      failed file leaves its partial writes plus the inline entries. */
  lemma OneFailingSourceDegrades(file: FileOutcome, inline: string)
    requires file.Decoded? || ParseInline(map[], inline).malformed.None?
    ensures ResolveClaimMappings(file, inline) == Success(file.Written() + InlineWrites(inline))
  {
  }
}
