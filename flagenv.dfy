/**
 * The flag/env/config-file merger of package flagenv: a line-oriented config
 * file parser, the flag-name to env-name mapping, and the precedence logic
 * that builds the argument list handed to the flag set.
 *
 * The file system is a map from path to file text, the process environment
 * a map from name to value (an absent name reads as ""), and the flag set
 * is the sequence of its flag names in the order `VisitAll` visits them.
 */
module FlagEnv {
  import opened Wrappers
  import opened GoStrings

  /** The character `flagNameToEnvName` puts in place of `c`. */
  function EnvChar(c: char): char {
    if c == '-' || c == '.' then '_' else UpperAscii(c)
  }

  /** `flagNameToEnvName`: upper-case, then every '-' and '.' becomes '_'. */
  function FlagNameToEnvName(flagName: string): (r: string)
    ensures |r| == |flagName|
    ensures forall i :: 0 <= i < |r| ==> r[i] == EnvChar(flagName[i])
    ensures forall i :: 0 <= i < |r| ==> r[i] != '-' && r[i] != '.' && !('a' <= r[i] <= 'z')
  {
    ReplaceAll(ReplaceAll(ToUpper(flagName), '-', '_'), '.', '_')
  }

  /** Mapping an env name again changes nothing. */
  lemma FlagNameToEnvNameIdempotent(flagName: string)
    ensures FlagNameToEnvName(FlagNameToEnvName(flagName)) == FlagNameToEnvName(flagName)
  {
    var e := FlagNameToEnvName(flagName);
    assert forall i :: 0 <= i < |e| ==> EnvChar(e[i]) == e[i];
  }

  // ---------------------------------------------------------------------
  // Errors

  datatype ConfigError =
    | ReadError(fileName: string)
    | DupError(fileName: string, lineNumber: nat, dup: string)
    | SyntaxError(fileName: string, lineNumber: nat, reason: string)
    | MissingEquals

  datatype ParseError =
    | MissingArguments(flagName: string)
    | LoadFailed(cause: ConfigError)
    | UnknownEnvVars(names: set<string>)

  const ExtraCharacters := "found extra characters"
  const SpaceCharacters := "found space characters"

  /** `dupError`: "file:line: duplicate error: \"name\"". */
  function DupMessage(fileName: string, lineNumber: nat, dup: string): string {
    fileName + ":" + Decimal(lineNumber) + ": duplicate error: " + "\"" + dup + "\""
  }

  /** `syntaxError`: "file:line: syntax error: reason". */
  function SyntaxMessage(fileName: string, lineNumber: nat, reason: string): string {
    fileName + ":" + Decimal(lineNumber) + ": syntax error: " + reason
  }

  function ConfigErrorMessage(e: ConfigError): string {
    match e
    case ReadError(f) => "open " + f + ": no such file or directory"
    case DupError(f, n, d) => DupMessage(f, n, d)
    case SyntaxError(f, n, r) => SyntaxMessage(f, n, r)
    case MissingEquals => "missing ="
  }

  predicate OccursAt(s: string, t: string, i: int) {
    0 <= i <= |s| - |t| && s[i..i + |t|] == t
  }

  ghost predicate Contains(s: string, t: string) {
    exists i :: OccursAt(s, t, i)
  }

  lemma OccursBetween(a: string, t: string, b: string)
    ensures OccursAt(a + t + b, t, |a|)
  {
    assert (a + t + b)[|a|..|a| + |t|] == t;
  }

  /** The phrase callers look for in a duplicate error is in its text. */
  lemma DupMessageNamesIt(f: string, n: nat, d: string)
    ensures Contains(ConfigErrorMessage(DupError(f, n, d)), "duplicate error")
  {
    var head := f + ":" + Decimal(n) + ": ";
    var tail := ": " + "\"" + d + "\"";
    OccursBetween(head, "duplicate error", tail);
    assert ": duplicate error: " == ": " + "duplicate error" + ": ";
    assert DupMessage(f, n, d) == (f + ":" + Decimal(n)) + ": duplicate error: " + ("\"" + d + "\"");
    assert DupMessage(f, n, d) == head + "duplicate error" + tail;
  }

  /** The phrase callers look for in a syntax error is in its text. */
  lemma SyntaxMessageNamesIt(f: string, n: nat, reason: string)
    ensures Contains(ConfigErrorMessage(SyntaxError(f, n, reason)), "syntax error")
  {
    var head := f + ":" + Decimal(n) + ": ";
    OccursBetween(head, "syntax error", ": " + reason);
    assert SyntaxMessage(f, n, reason) == head + "syntax error" + (": " + reason);
  }

  // ---------------------------------------------------------------------
  // loadConfigFile

  /** The text of one line that is looked at: cut at the first '#', then trimmed. */
  function CleanLine(raw: string): string {
    TrimSpace(Cut(raw, '#').before)
  }

  /**
   * A cleaned line holds no comment and has no space at either end; it is
   * the raw line's text before its first '#' less the surrounding spaces.
   */
  lemma CleanLineShape(raw: string)
    ensures '#' !in CleanLine(raw)
    ensures var l := CleanLine(raw); l == [] || (!IsSpace(l[0]) && !IsSpace(l[|l| - 1]))
  {
    TrimSpaceOmits(Cut(raw, '#').before, '#');
  }

  /** What the parser has gathered so far: flag arguments, env values, and every env name seen. */
  datatype Acc = Acc(flags: seq<string>, envVars: map<string, string>, envNames: set<string>)

  const EmptyAcc := Acc([], map[], {})

  /**
   * How the loader reads the name of a flag line. `AsWritten` is what
   * `loadConfigFile` does: the text after the '-' up to the first '='.
   * `Corrected` stops the name of a "-name value" line at its first space,
   * which is what the duplicate check evidently means to compare (see
   * "Findings" in README.md). `LoadConfig`, `LoadConfigFile` and `Parse`
   * use `AsWritten`.
   */
  datatype Reading = AsWritten | Corrected

  /**
   * The flag name of a "-name=value" or "-name value" line as the loader
   * computes it: everything after the '-' up to the first '='. A
   * "-name value" line has no '=', so this is the whole "name value".
   */
  function FlagNameAsWritten(line: string): string
    requires HasPrefix(line, '-')
  {
    Cut(line[1..], '=').before
  }

  /**
   * The name of the flag a "-name=value" or "-name value" line sets: the
   * text after the '-' up to the first '=', or, without '=', up to the
   * first space.
   */
  function FlagName(line: string): (name: string)
    requires HasPrefix(line, '-')
    ensures '=' in line[1..] ==> name == FlagNameAsWritten(line)
    ensures '=' !in line[1..] ==> |name| < |line| && NoSpace(name) && name == line[1..][..|name|]
  {
    var c := Cut(line[1..], '=');
    if c.found then c.before else line[1..][..SpanNonSpace(line[1..])]
  }

  /** The flag name of a flag line under `reading`. */
  function LineFlagName(reading: Reading, line: string): string
    requires HasPrefix(line, '-')
  {
    if reading == AsWritten then FlagNameAsWritten(line) else FlagName(line)
  }

  /** On a "-name value" line the two names part: the loader's keeps the value, the flag's stops before it. */
  lemma AsWrittenNameKeepsValue()
    ensures FlagNameAsWritten("-a b") == "a b"
    ensures FlagName("-a b") == "a"
    ensures FlagNameToEnvName(FlagNameAsWritten("-a b")) != FlagNameToEnvName(FlagName("-a b"))
  {
    assert "-a b"[1..] == "a b";
    assert Cut("a b", '=').before == "a b";
    assert SpanNonSpace("a b"[1..]) == 0 by {
      assert "a b"[1..][0] == ' ';
    }
    assert "a b"[..1] == "a";
    assert FlagNameToEnvName("a b")[1] == '_' || FlagNameToEnvName("a b")[1] == ' ';
    assert |FlagNameToEnvName("a")| == 1;
  }

  /** A line without comment and without surrounding space is its own cleaned line. */
  lemma CleanTidyLine(s: string)
    requires s != [] && '#' !in s && !IsSpace(s[0]) && !IsSpace(s[|s| - 1])
    ensures CleanLine(s) == s
  {
    assert TrimLeftSpace(s) == s;
    assert TrimRightSpace(s) == s;
  }

  /** `Fields` of a string that starts with a non-space character: its leading run, then the rest's fields. */
  lemma FieldsFromWord(s: string)
    requires s != [] && !IsSpace(s[0])
    ensures Fields(s) == [s[..SpanNonSpace(s)]] + Fields(s[SpanNonSpace(s)..])
  {
    assert TrimLeftSpace(s) == s;
  }

  /** `Fields` skips a leading space character. */
  lemma FieldsSkipSpace(s: string)
    requires s != [] && IsSpace(s[0])
    ensures Fields(s) == Fields(s[1..])
  {
    assert TrimLeftSpace(s) == TrimLeftSpace(s[1..]);
  }

  /** A run of non-space characters followed by a space spans exactly the run. */
  lemma {:induction false} SpanUpToSpace(w: string, rest: string)
    requires NoSpace(w) && rest != [] && IsSpace(rest[0])
    ensures SpanNonSpace(w + rest) == |w|
    decreases |w|
  {
    if w == [] {
      assert w + rest == rest;
    } else {
      assert (w + rest)[1..] == w[1..] + rest;
      SpanUpToSpace(w[1..], rest);
    }
  }

  /** A string without space characters is one run. */
  lemma {:induction false} SpanOfWord(w: string)
    requires NoSpace(w)
    ensures SpanNonSpace(w) == |w|
    decreases |w|
  {
    if w != [] {
      SpanOfWord(w[1..]);
    }
  }

  /** The config line "-name value". */
  function PairLine(name: string, value: string): (line: string)
    ensures |line| == |name| + |value| + 2 && line[0] == '-' && line[|name| + 1] == ' '
    ensures line[1..] == name + ([' '] + value)
    ensures line == (['-'] + name) + ([' '] + value)
  {
    ['-'] + (name + ([' '] + value))
  }

  /** The env name the line "-name value" claims under `reading`. */
  function PairLineClaim(reading: Reading, name: string, value: string): string {
    if reading == AsWritten then FlagNameToEnvName(name + ([' '] + value)) else FlagNameToEnvName(name)
  }

  /**
   * On the line "-name value" the loader's name runs on to the end of the
   * value, while the flag's name is `name` alone; each reading claims the
   * env name of its own flag name.
   */
  lemma PairLineName(name: string, value: string)
    requires NoSpace(name) && '=' !in name && '=' !in value
    ensures FlagNameAsWritten(PairLine(name, value)) == name + ([' '] + value)
    ensures FlagName(PairLine(name, value)) == name
    ensures LineEnvName(AsWritten, PairLine(name, value)) == PairLineClaim(AsWritten, name, value)
    ensures LineEnvName(Corrected, PairLine(name, value)) == PairLineClaim(Corrected, name, value)
  {
    var t := name + ([' '] + value);
    assert '=' !in t;
    SpanUpToSpace(name, [' '] + value);
    assert t[..|name|] == name;
  }

  /** A word, a space, then `v`: the word is the first field, the fields of `v` the rest. */
  lemma FieldsOfWordThenSpace(w: string, v: string)
    requires w != [] && NoSpace(w)
    ensures Fields(w + ([' '] + v)) == [w] + Fields(v)
  {
    var rest := [' '] + v;
    FieldsFromWord(w + rest);
    SpanUpToSpace(w, rest);
    assert (w + rest)[..|w|] == w && (w + rest)[|w|..] == rest;
    FieldsSkipSpace(rest);
    assert rest[1..] == v;
  }

  /** A word without space characters is its only field. */
  lemma FieldsOfWord(w: string)
    requires w != [] && NoSpace(w)
    ensures Fields(w) == [w]
  {
    SingleField(w);
  }

  /** A '-' followed by a word is a word. */
  lemma DashWord(name: string)
    requires NoSpace(name)
    ensures NoSpace(['-'] + name)
  {
    var word := ['-'] + name;
    forall k | 1 <= k < |word| ensures !IsSpace(word[k]) {
      assert word[k] == name[k - 1];
    }
  }

  /** The fields of "-name value" are "-name" and "value". */
  lemma PairLineFields(name: string, value: string)
    requires NoSpace(name) && NoSpace(value) && value != []
    ensures Fields(PairLine(name, value)) == [['-'] + name, value]
  {
    DashWord(name);
    FieldsOfWordThenSpace(['-'] + name, value);
    FieldsOfWord(value);
  }

  /** "-name value" is its own cleaned line, a flag line without '='. */
  lemma PairLineTidy(name: string, value: string)
    requires value != [] && !IsSpace(value[|value| - 1])
    requires '=' !in name && '=' !in value && '#' !in name && '#' !in value
    ensures var line := PairLine(name, value);
      CleanLine(line) == line && line != [] && HasPrefix(line, '-') && '=' !in line
  {
    var line := PairLine(name, value);
    var t := name + ([' '] + value);
    assert line[|line| - 1] == value[|value| - 1];
    assert '#' !in t && '=' !in t;
    assert '#' !in line && '=' !in line by {
      assert line == ['-'] + t;
    }
    CleanTidyLine(line);
  }

  /** "-name value" is its own cleaned line, and under each reading it claims that reading's env name. */
  lemma PairLineNameOf(name: string, value: string)
    requires NoSpace(name) && NoSpace(value) && value != []
    requires '=' !in name && '=' !in value && '#' !in name && '#' !in value
    ensures var line := PairLine(name, value);
      && CleanLine(line) == line && Meaningful(line) && HasPrefix(line, '-') && '=' !in line
      && NameOf(AsWritten, line) == PairLineClaim(AsWritten, name, value)
      && NameOf(Corrected, line) == PairLineClaim(Corrected, name, value)
  {
    PairLineTidy(name, value);
    PairLineName(name, value);
  }

  /** "-name value" is not blank and claims the env name `PairLineClaim` gives. */
  lemma PairLineClaims(reading: Reading, name: string, value: string)
    requires NoSpace(name) && NoSpace(value) && value != []
    requires '=' !in name && '=' !in value && '#' !in name && '#' !in value
    ensures Meaningful(PairLine(name, value)) && NameOf(reading, PairLine(name, value)) == PairLineClaim(reading, name, value)
  {
    PairLineNameOf(name, value);
  }

  /**
   * A "-name value" line whose claimed env name is new loads as its two
   * fields and claims that name: "name value"'s as written, `name`'s
   * corrected.
   */
  lemma PairLineLoads(reading: Reading, acc: Acc, fileName: string, n: nat, name: string, value: string)
    requires NoSpace(name) && NoSpace(value) && value != []
    requires '=' !in name && '=' !in value && '#' !in name && '#' !in value
    requires PairLineClaim(reading, name, value) !in acc.envNames
    ensures LoadLine(reading, acc, fileName, n, PairLine(name, value))
         == Success(Acc(acc.flags + [['-'] + name, value], acc.envVars,
                        acc.envNames + {PairLineClaim(reading, name, value)}))
  {
    PairLineNameOf(name, value);
    PairLineFields(name, value);
    TidyPairLineLoads(reading, acc, fileName, n, PairLine(name, value), ['-'] + name, value);
  }

  /** A cleaned flag line without '=' whose fields are a pair loads as that pair. */
  lemma TidyPairLineLoads(reading: Reading, acc: Acc, fileName: string, n: nat, line: string, word: string, value: string)
    requires CleanLine(line) == line && line != [] && HasPrefix(line, '-') && '=' !in line
    requires Fields(line) == [word, value] && LineEnvName(reading, line) !in acc.envNames
    ensures LoadLine(reading, acc, fileName, n, line)
         == Success(Acc(acc.flags + [word, value], acc.envVars, acc.envNames + {LineEnvName(reading, line)}))
  {
    FlagPairLine(reading, acc, fileName, n, line);
  }

  /** An env name made of a flag name without space characters has none either. */
  lemma EnvNameNoSpace(flagName: string)
    requires NoSpace(flagName)
    ensures NoSpace(FlagNameToEnvName(flagName))
  {
    var e := FlagNameToEnvName(flagName);
    forall i | 0 <= i < |e| ensures !IsSpace(e[i]) {
      assert e[i] == EnvChar(flagName[i]);
    }
  }

  /** The config line "KEY=value". */
  function KeyLine(key: string, value: string): (line: string)
    ensures line == key + (['='] + value)
  {
    key + (['='] + value)
  }

  /** "KEY=value" has no space character when neither part has one. */
  lemma KeyLineNoSpace(key: string, value: string)
    requires NoSpace(key) && NoSpace(value)
    ensures NoSpace(KeyLine(key, value))
  {
    var line := KeyLine(key, value);
    forall i | 0 <= i < |line| ensures !IsSpace(line[i]) {
      if i < |key| {
        assert line[i] == key[i];
      } else if i > |key| {
        assert line[i] == value[i - |key| - 1];
      }
    }
  }

  /** "KEY=value" cut at its first '=' gives back KEY and value. */
  lemma KeyLineCut(key: string, value: string)
    requires '=' !in key
    ensures Cut(KeyLine(key, value), '=') == CutResult(key, value, true)
  {
    var line := KeyLine(key, value);
    assert line[..|key|] == key && line[|key|] == '=' && line[|key| + 1..] == value;
  }

  /** "KEY=value" without space, '#' or leading '-' is its own cleaned line, one field, cut at the '='. */
  lemma KeyLineShape(key: string, value: string)
    requires key != [] && key[0] != '-' && '=' !in key
    requires NoSpace(key) && NoSpace(value) && '#' !in key && '#' !in value
    ensures var line := KeyLine(key, value);
      && CleanLine(line) == line && line != [] && !HasPrefix(line, '-')
      && |Fields(line)| == 1 && Cut(line, '=') == CutResult(key, value, true)
  {
    var line := KeyLine(key, value);
    assert '#' !in line by {
      assert forall i :: 0 <= i < |line| ==> line[i] == '=' || line[i] in key || line[i] in value;
    }
    KeyLineNoSpace(key, value);
    CleanTidyLine(line);
    SingleField(line);
    KeyLineCut(key, value);
  }

  /**
   * A "KEY=value" line with no space, '#' or leading '-' claims KEY under
   * either reading; with a new KEY it loads the pair into the env values,
   * and with a KEY seen before it is a duplicate naming KEY.
   */
  lemma KeyLineLoads(reading: Reading, acc: Acc, fileName: string, n: nat, key: string, value: string)
    requires key != [] && key[0] != '-' && '=' !in key
    requires NoSpace(key) && NoSpace(value) && '#' !in key && '#' !in value
    ensures Meaningful(KeyLine(key, value)) && NameOf(reading, KeyLine(key, value)) == key
    ensures LoadLine(reading, acc, fileName, n, KeyLine(key, value))
         == if key in acc.envNames then Failure(DupError(fileName, n, key))
            else Success(Acc(acc.flags, acc.envVars[key := value], acc.envNames + {key}))
  {
    KeyLineShape(key, value);
  }

  /** An env name has no '=', '#' or '-', and no space when its flag name has none. */
  lemma EnvNameIsKey(name: string)
    requires name != [] && NoSpace(name) && '=' !in name && '#' !in name
    ensures var key := FlagNameToEnvName(name);
      key != [] && key[0] != '-' && '=' !in key && '#' !in key && NoSpace(key)
  {
    var key := FlagNameToEnvName(name);
    EnvNameNoSpace(name);
    assert forall i :: 0 <= i < |key| ==> key[i] == EnvChar(name[i]);
  }

  /**
   * As written, "-name value" followed by "NAME=v" (NAME the env name of
   * `name`) loads: the first line claims the env name of "name value", so
   * the flag and the env variable of the same name are both set.
   */
  lemma AsWrittenMissesDuplicate(fileName: string, name: string, value: string, v: string)
    requires name != [] && NoSpace(name) && NoSpace(value) && value != [] && NoSpace(v)
    requires '=' !in name && '=' !in value && '#' !in name && '#' !in value && '#' !in v
    ensures LoadLines(AsWritten, EmptyAcc, fileName, [PairLine(name, value), KeyLine(FlagNameToEnvName(name), v)], 0)
         == Success(Acc([['-'] + name, value], map[FlagNameToEnvName(name) := v],
                        {FlagNameToEnvName(name + ([' '] + value)), FlagNameToEnvName(name)}))
  {
    var key := FlagNameToEnvName(name);
    PairLineFirst(AsWritten, fileName, name, value);
    AsWrittenKeyAfterPair(fileName, name, value, v);
    LoadTwoLines(AsWritten, EmptyAcc, Acc([['-'] + name, value], map[], {PairLineClaim(AsWritten, name, value)}),
                 fileName, PairLine(name, value), KeyLine(key, v));
  }

  /** As written, "NAME=v" still loads after "-name value", which claimed the env name of "name value". */
  lemma AsWrittenKeyAfterPair(fileName: string, name: string, value: string, v: string)
    requires name != [] && NoSpace(name) && NoSpace(v)
    requires '=' !in name && '#' !in name && '#' !in v
    ensures var key := FlagNameToEnvName(name);
      var claim := PairLineClaim(AsWritten, name, value);
      LoadLine(AsWritten, Acc([['-'] + name, value], map[], {claim}), fileName, 2, KeyLine(key, v))
        == Success(Acc([['-'] + name, value], map[key := v], {FlagNameToEnvName(name + ([' '] + value)), key}))
  {
    var key := FlagNameToEnvName(name);
    var claim := PairLineClaim(AsWritten, name, value);
    assert claim == FlagNameToEnvName(name + ([' '] + value));
    EnvNameIsKey(name);
    assert |claim| != |key|;
    KeyAfterOtherClaim(AsWritten, [['-'] + name, value], claim, fileName, 2, key, v);
  }

  /** A key line after a line that claimed a different env name adds its name beside it. */
  lemma KeyAfterOtherClaim(reading: Reading, flags: seq<string>, claim: string, fileName: string, n: nat, key: string, value: string)
    requires key != [] && key[0] != '-' && '=' !in key
    requires NoSpace(key) && NoSpace(value) && '#' !in key && '#' !in value
    requires claim != key
    ensures LoadLine(reading, Acc(flags, map[], {claim}), fileName, n, KeyLine(key, value))
         == Success(Acc(flags, map[key := value], {claim, key}))
  {
    var a := Acc(flags, map[], {claim});
    assert Acc(a.flags, a.envVars[key := value], a.envNames + {key}) == Acc(flags, map[key := value], {claim, key}) by {
      assert a.envVars[key := value] == map[key := value];
      assert a.envNames + {key} == {claim, key};
    }
    KeyLineLoads(reading, a, fileName, n, key, value);
  }

  /** "-name value" as the first line of a file. */
  lemma PairLineFirst(reading: Reading, fileName: string, name: string, value: string)
    requires NoSpace(name) && NoSpace(value) && value != []
    requires '=' !in name && '=' !in value && '#' !in name && '#' !in value
    ensures LoadLine(reading, EmptyAcc, fileName, 1, PairLine(name, value))
         == Success(Acc([['-'] + name, value], map[], {PairLineClaim(reading, name, value)}))
  {
    var claim := PairLineClaim(reading, name, value);
    var pair := [['-'] + name, value];
    assert Acc(EmptyAcc.flags + pair, EmptyAcc.envVars, EmptyAcc.envNames + {claim}) == Acc(pair, map[], {claim}) by {
      assert EmptyAcc.flags + pair == pair;
      assert EmptyAcc.envNames + {claim} == {claim};
    }
    PairLineLoads(reading, EmptyAcc, fileName, 1, name, value);
  }

  /**
   * Read as corrected, "-name value" followed by "NAME=v" is refused: the
   * second line is a duplicate of the first, reported on line 2 and
   * naming NAME.
   */
  lemma CorrectedCatchesDuplicate(fileName: string, name: string, value: string, v: string)
    requires name != [] && NoSpace(name) && NoSpace(value) && value != [] && NoSpace(v)
    requires '=' !in name && '=' !in value && '#' !in name && '#' !in value && '#' !in v
    ensures LoadLines(Corrected, EmptyAcc, fileName, [PairLine(name, value), KeyLine(FlagNameToEnvName(name), v)], 0)
         == Failure(DupError(fileName, 2, FlagNameToEnvName(name)))
  {
    var key := FlagNameToEnvName(name);
    EnvNameIsKey(name);
    var pair := [['-'] + name, value];
    assert EmptyAcc.flags + pair == pair;
    PairLineLoads(Corrected, EmptyAcc, fileName, 1, name, value);
    var b := LoadLine(Corrected, EmptyAcc, fileName, 1, PairLine(name, value)).value;
    assert key in b.envNames;
    KeyLineLoads(Corrected, b, fileName, 2, key, v);
    LoadTwoLines(Corrected, EmptyAcc, b, fileName, PairLine(name, value), KeyLine(key, v));
  }

  /** A two-line file whose first line loads to `a` loads as its second line does from `a`. */
  lemma LoadTwoLines(reading: Reading, acc: Acc, a: Acc, fileName: string, first: string, second: string)
    requires LoadLine(reading, acc, fileName, 1, first) == Success(a)
    ensures LoadLines(reading, acc, fileName, [first, second], 0) == LoadLine(reading, a, fileName, 2, second)
  {
    assert [first, second][1..] == [second];
    assert LoadLines(reading, acc, fileName, [first, second], 0) == LoadLines(reading, a, fileName, [second], 1);
    match LoadLine(reading, a, fileName, 2, second)
    case Failure(_) =>
    case Success(b) =>
      assert [second][1..] == [];
      assert LoadLines(reading, b, fileName, [], 2) == Success(b);
  }

  /** After a "-name value" line, a later line that claims the same env name is refused, read as corrected. */
  lemma SameNameAfterPairLineFails(fileName: string, name: string, value: string, raw: string)
    requires NoSpace(name) && NoSpace(value) && value != []
    requires '=' !in name && '=' !in value && '#' !in name && '#' !in value
    requires Meaningful(raw) && NameOf(Corrected, raw) == FlagNameToEnvName(name)
    ensures LoadLines(Corrected, EmptyAcc, fileName, [PairLine(name, value), raw], 0).Failure?
  {
    PairLineClaims(Corrected, name, value);
    SameNameFails(Corrected, EmptyAcc, fileName, [PairLine(name, value), raw], 0, 0, 1);
  }

  /** The env name a non-blank cleaned line claims, whether a flag line or a KEY=VALUE line. */
  function LineEnvName(reading: Reading, line: string): string {
    if HasPrefix(line, '-') then FlagNameToEnvName(LineFlagName(reading, line)) else Cut(line, '=').before
  }

  /** One iteration of the loop of `loadConfigFile` on the raw line numbered `lineNumber`. */
  function LoadLine(reading: Reading, acc: Acc, fileName: string, lineNumber: nat, raw: string): Result<Acc, ConfigError> {
    var line := CleanLine(raw);
    if line == [] then Success(acc)
    else if HasPrefix(line, '-') then
      var c := Cut(line[1..], '=');
      var flagName := LineFlagName(reading, line);
      var envName := FlagNameToEnvName(flagName);
      if envName in acc.envNames then Failure(DupError(fileName, lineNumber, flagName))
      else if c.found then
        Success(Acc(acc.flags + [line], acc.envVars, acc.envNames + {envName}))
      else
        var fields := Fields(line);
        if |fields| != 2 then Failure(SyntaxError(fileName, lineNumber, ExtraCharacters))
        else Success(Acc(acc.flags + fields, acc.envVars, acc.envNames + {envName}))
    else if |Fields(line)| != 1 then Failure(SyntaxError(fileName, lineNumber, SpaceCharacters))
    else
      var c := Cut(line, '=');
      if !c.found then Failure(MissingEquals)
      else if c.before in acc.envNames then Failure(DupError(fileName, lineNumber, c.before))
      else Success(Acc(acc.flags, acc.envVars[c.before := c.after], acc.envNames + {c.before}))
  }

  /** The loop of `loadConfigFile` over `lines`, the first of which is numbered `done + 1`. */
  function LoadLines(reading: Reading, acc: Acc, fileName: string, lines: seq<string>, done: nat): Result<Acc, ConfigError>
    decreases |lines|
  {
    if lines == [] then Success(acc)
    else
      match LoadLine(reading, acc, fileName, done + 1, lines[0])
      case Failure(e) => Failure(e)
      case Success(a) => LoadLines(reading, a, fileName, lines[1..], done + 1)
  }

  datatype Loaded = Loaded(flags: seq<string>, envVars: map<string, string>)

  /** `loadConfigFile` as written. */
  function LoadConfig(fileName: string, files: map<string, string>): Result<Loaded, ConfigError> {
    if fileName !in files then Failure(ReadError(fileName))
    else
      match LoadLines(AsWritten, EmptyAcc, fileName, Lines(files[fileName]), 0)
      case Failure(e) => Failure(e)
      case Success(a) => Success(Loaded(a.flags, a.envVars))
  }

  /** One turn of the loop: line `i + 1` is loaded, then the rest. */
  lemma LoadLinesStep(reading: Reading, acc: Acc, fileName: string, lines: seq<string>, i: nat)
    requires i < |lines|
    ensures LoadLines(reading, acc, fileName, lines[i..], i)
         == match LoadLine(reading, acc, fileName, i + 1, lines[i])
            case Failure(e) => Failure(e)
            case Success(a) => LoadLines(reading, a, fileName, lines[i + 1..], i + 1)
  {
    assert lines[i..][1..] == lines[i + 1..];
  }

  /** `loadConfigFile`, line by line with a line counter. */
  method LoadConfigFile(fileName: string, files: map<string, string>) returns (res: Result<Loaded, ConfigError>)
    ensures res == LoadConfig(fileName, files)
  {
    if fileName !in files {
      return Failure(ReadError(fileName));
    }
    var flags: seq<string> := [];
    var envVars: map<string, string> := map[];
    var envNames: set<string> := {};
    var lines := Lines(files[fileName]);
    var lineNumber := 0;
    while lineNumber < |lines|
      invariant 0 <= lineNumber <= |lines|
      invariant LoadLines(AsWritten, Acc(flags, envVars, envNames), fileName, lines[lineNumber..], lineNumber)
             == LoadLines(AsWritten, EmptyAcc, fileName, lines, 0)
    {
      ghost var acc := Acc(flags, envVars, envNames);
      LoadLinesStep(AsWritten, acc, fileName, lines, lineNumber);
      var raw := lines[lineNumber];
      lineNumber := lineNumber + 1;
      var line := Cut(raw, '#').before;
      line := TrimSpace(line);
      if line == [] {
        continue;
      }
      if HasPrefix(line, '-') {
        var c := Cut(line[1..], '=');
        var flagName := c.before;
        var envName := FlagNameToEnvName(flagName);
        if envName in envNames {
          return Failure(DupError(fileName, lineNumber, flagName));
        }
        envNames := envNames + {envName};
        if c.found {
          flags := flags + [line];
        } else {
          var fields := Fields(line);
          if |fields| != 2 {
            return Failure(SyntaxError(fileName, lineNumber, ExtraCharacters));
          }
          flags := flags + fields;
        }
      } else {
        if |Fields(line)| != 1 {
          return Failure(SyntaxError(fileName, lineNumber, SpaceCharacters));
        }
        var c := Cut(line, '=');
        if !c.found {
          return Failure(MissingEquals);
        }
        if c.before in envNames {
          return Failure(DupError(fileName, lineNumber, c.before));
        }
        envNames := envNames + {c.before};
        envVars := envVars[c.before := c.after];
      }
      assert LoadLine(AsWritten, acc, fileName, lineNumber, raw) == Success(Acc(flags, envVars, envNames));
    }
    res := Success(Loaded(flags, envVars));
  }

  /** A line that loads adds its env name, which was not seen before. */
  lemma LoadLineNames(reading: Reading, acc: Acc, fileName: string, n: nat, raw: string)
    requires LoadLine(reading, acc, fileName, n, raw).Success?
    ensures var a := LoadLine(reading, acc, fileName, n, raw).value;
      && acc.envNames <= a.envNames
      && (Meaningful(raw) ==> NameOf(reading, raw) !in acc.envNames && a.envNames == acc.envNames + {NameOf(reading, raw)})
      && (!Meaningful(raw) ==> a == acc)
  {
    var line := CleanLine(raw);
    if line != [] {
      if HasPrefix(line, '-') {
        FlagLineNames(reading, acc, fileName, n, raw, line);
      } else {
        KeyLineNames(reading, acc, fileName, n, raw, line);
      }
    }
  }

  lemma FlagLineNames(reading: Reading, acc: Acc, fileName: string, n: nat, raw: string, line: string)
    requires line == CleanLine(raw) && line != [] && HasPrefix(line, '-')
    requires LoadLine(reading, acc, fileName, n, raw).Success?
    ensures NameOf(reading, raw) !in acc.envNames
    ensures LoadLine(reading, acc, fileName, n, raw).value.envNames == acc.envNames + {NameOf(reading, raw)}
  {
    var envName := FlagNameToEnvName(LineFlagName(reading, line));
    assert NameOf(reading, raw) == envName;
  }

  lemma KeyLineNames(reading: Reading, acc: Acc, fileName: string, n: nat, raw: string, line: string)
    requires line == CleanLine(raw) && line != [] && !HasPrefix(line, '-')
    requires LoadLine(reading, acc, fileName, n, raw).Success?
    ensures NameOf(reading, raw) !in acc.envNames
    ensures LoadLine(reading, acc, fileName, n, raw).value.envNames == acc.envNames + {NameOf(reading, raw)}
  {
    assert NameOf(reading, raw) == Cut(line, '=').before;
  }

  /** A non-blank line, after cleaning. */
  predicate Meaningful(raw: string) {
    CleanLine(raw) != []
  }

  /** The env name a raw line claims under `reading`, after cleaning. */
  function NameOf(reading: Reading, raw: string): string {
    LineEnvName(reading, CleanLine(raw))
  }

  lemma LoadLinesCons(reading: Reading, acc: Acc, fileName: string, lines: seq<string>, done: nat)
    requires lines != [] && LoadLines(reading, acc, fileName, lines, done).Success?
    ensures LoadLine(reading, acc, fileName, done + 1, lines[0]).Success?
    ensures LoadLines(reading, LoadLine(reading, acc, fileName, done + 1, lines[0]).value, fileName, lines[1..], done + 1).Success?
  {
  }

  /** The env names of the lines of a file that loads are all new to `acc`. */
  lemma {:induction false} LoadedNamesFresh(reading: Reading, acc: Acc, fileName: string, lines: seq<string>, done: nat)
    requires LoadLines(reading, acc, fileName, lines, done).Success?
    ensures forall i :: 0 <= i < |lines| && Meaningful(lines[i]) ==> NameOf(reading, lines[i]) !in acc.envNames
    decreases |lines|
  {
    if lines != [] {
      LoadLinesCons(reading, acc, fileName, lines, done);
      LoadLineNames(reading, acc, fileName, done + 1, lines[0]);
      var a := LoadLine(reading, acc, fileName, done + 1, lines[0]).value;
      LoadedNamesFresh(reading, a, fileName, lines[1..], done + 1);
      forall i | 1 <= i < |lines| && Meaningful(lines[i]) ensures NameOf(reading, lines[i]) !in acc.envNames {
        assert lines[i] == lines[1..][i - 1];
      }
    }
  }

  /**
   * A file that loads never names the same env name twice: the env names
   * its non-blank lines claim are pairwise distinct, whether they come
   * from flag lines or KEY=VALUE lines.
   */
  lemma {:induction false} LoadedNamesDistinct(reading: Reading, acc: Acc, fileName: string, lines: seq<string>, done: nat)
    requires LoadLines(reading, acc, fileName, lines, done).Success?
    ensures forall i, j :: 0 <= i < j < |lines| && Meaningful(lines[i]) && Meaningful(lines[j]) ==>
              NameOf(reading, lines[i]) != NameOf(reading, lines[j])
    decreases |lines|
  {
    if lines != [] {
      LoadLinesCons(reading, acc, fileName, lines, done);
      LoadLineNames(reading, acc, fileName, done + 1, lines[0]);
      var a := LoadLine(reading, acc, fileName, done + 1, lines[0]).value;
      LoadedNamesFresh(reading, a, fileName, lines[1..], done + 1);
      LoadedNamesDistinct(reading, a, fileName, lines[1..], done + 1);
      forall i, j | 0 <= i < j < |lines| && Meaningful(lines[i]) && Meaningful(lines[j])
        ensures NameOf(reading, lines[i]) != NameOf(reading, lines[j])
      {
        assert lines[j] == lines[1..][j - 1];
        if i > 0 {
          assert lines[i] == lines[1..][i - 1];
        }
      }
    }
  }

  /** Two non-blank lines that claim the same env name keep the file from loading. */
  lemma SameNameFails(reading: Reading, acc: Acc, fileName: string, lines: seq<string>, done: nat, i: nat, j: nat)
    requires i < j < |lines| && Meaningful(lines[i]) && Meaningful(lines[j])
    requires NameOf(reading, lines[i]) == NameOf(reading, lines[j])
    ensures LoadLines(reading, acc, fileName, lines, done).Failure?
  {
    if LoadLines(reading, acc, fileName, lines, done).Success? {
      LoadedNamesDistinct(reading, acc, fileName, lines, done);
      assert false;
    }
  }

  /** A non-flag line that contains a space character is a syntax error on its own line. */
  lemma NonFlagLineWithSpace(reading: Reading, acc: Acc, fileName: string, n: nat, raw: string)
    requires CleanLine(raw) != [] && !HasPrefix(CleanLine(raw), '-') && !NoSpace(CleanLine(raw))
    ensures LoadLine(reading, acc, fileName, n, raw) == Failure(SyntaxError(fileName, n, SpaceCharacters))
  {
    CleanLineShape(raw);
    SingleField(CleanLine(raw));
  }

  /** A non-flag line without space and without '=' fails with "missing =". */
  lemma NonFlagLineWithoutEquals(reading: Reading, acc: Acc, fileName: string, n: nat, raw: string)
    requires CleanLine(raw) != [] && !HasPrefix(CleanLine(raw), '-') && NoSpace(CleanLine(raw))
    requires '=' !in CleanLine(raw)
    ensures LoadLine(reading, acc, fileName, n, raw) == Failure(MissingEquals)
  {
    CleanLineShape(raw);
    SingleField(CleanLine(raw));
  }

  /**
   * A "-name value" line with a new name loads as its two fields, and any
   * other number of fields is a syntax error carrying the line number.
   */
  lemma FlagPairLine(reading: Reading, acc: Acc, fileName: string, n: nat, raw: string)
    requires CleanLine(raw) != [] && HasPrefix(CleanLine(raw), '-') && '=' !in CleanLine(raw)
    requires LineEnvName(reading, CleanLine(raw)) !in acc.envNames
    ensures var fields := Fields(CleanLine(raw));
      LoadLine(reading, acc, fileName, n, raw) ==
        if |fields| == 2 then Success(Acc(acc.flags + fields, acc.envVars, acc.envNames + {LineEnvName(reading, CleanLine(raw))}))
        else Failure(SyntaxError(fileName, n, ExtraCharacters))
  {
    var line := CleanLine(raw);
    assert '=' !in line[1..] by {
      assert forall k :: 0 <= k < |line[1..]| ==> line[1..][k] == line[k + 1];
    }
  }

  // ---------------------------------------------------------------------
  // Parse

  /** `os.Getenv` */
  function Getenv(env: map<string, string>, name: string): string {
    if name in env then env[name] else ""
  }

  /**
   * Where the config file comes from: the env var's path `envPath`, unless
   * the FIRST argument is `-name`, `--name`, `-name=path` or `--name=path`
   * for the config flag `name`, which is then consumed (with the following
   * argument in the two forms without '='). Yields the path and the
   * remaining arguments.
   */
  function ConfigPath(args: seq<string>, name: string, envPath: string): (r: Result<(string, seq<string>), ParseError>)
    ensures r.Success? ==> r.value.1 == args || (0 < |args| && r.value.1 == args[1..])
                           || (1 < |args| && r.value.1 == args[2..])
    ensures (args == [] || !HasPrefix(args[0], '-')) ==> r == Success((envPath, args))
    ensures r.Failure? ==> r.error == MissingArguments(name) && |args| == 1
  {
    if |args| == 0 then Success((envPath, args))
    else
      var (arg, isFlag) := CutPrefix(args[0], '-');
      if !isFlag then Success((envPath, args))
      else
        var (arg', _) := CutPrefix(arg, '-');
        var c := Cut(arg', '=');
        if c.before != name then Success((envPath, args))
        else
          var rest := args[1..];
          if !c.found && |rest| == 0 then Failure(MissingArguments(name))
          else if c.found then Success((c.after, rest))
          else Success((rest[0], rest[1..]))
  }

  /** The four spellings of the config flag, and the bare flag with nothing after it. */
  lemma ConfigPathForms(name: string, path: string, more: seq<string>, envPath: string)
    requires name != [] && name[0] != '-' && '=' !in name
    ensures ConfigPath(["-" + (name + "=" + path)] + more, name, envPath) == Success((path, more))
    ensures ConfigPath(["--" + (name + "=" + path)] + more, name, envPath) == Success((path, more))
    ensures ConfigPath(["-" + name, path] + more, name, envPath) == Success((path, more))
    ensures ConfigPath(["--" + name, path] + more, name, envPath) == Success((path, more))
    ensures ConfigPath(["-" + name], name, envPath) == Failure(MissingArguments(name))
    ensures ConfigPath(["--" + name], name, envPath) == Failure(MissingArguments(name))
  {
    var joined := name + "=" + path;
    assert joined[0] == name[0];
    UndashedForms(joined);
    UndashedForms(name);
    CutAtFirst(name, path);
    assert Cut(name, '=') == CutResult(name, [], false);
    JoinedForm("-" + joined, name, path, more, envPath);
    JoinedForm("--" + joined, name, path, more, envPath);
    SplitForm("-" + name, name, path, more, envPath);
    SplitForm("--" + name, name, path, more, envPath);
  }

  /** One or two dashes in front of a word that does not start with one are both dropped. */
  lemma UndashedForms(x: string)
    requires x != [] && x[0] != '-'
    ensures Undashed("-" + x) == x && Undashed("--" + x) == x
  {
    assert ("-" + x)[1..] == x;
    assert ("--" + x)[1..] == "-" + x;
  }

  /** The argument after its one or two dashes, as `ConfigPath` reads it. */
  function Undashed(arg: string): string {
    CutPrefix(CutPrefix(arg, '-').0, '-').0
  }

  /** "-name=path" and "--name=path" give the path and leave the arguments after it. */
  lemma JoinedForm(arg: string, name: string, path: string, more: seq<string>, envPath: string)
    requires HasPrefix(arg, '-') && Cut(Undashed(arg), '=') == CutResult(name, path, true)
    ensures ConfigPath([arg] + more, name, envPath) == Success((path, more))
  {
    assert ([arg] + more)[0] == arg && ([arg] + more)[1..] == more;
  }

  /** "-name path" and "--name path" take the next argument as the path; without one they fail. */
  lemma SplitForm(arg: string, name: string, path: string, more: seq<string>, envPath: string)
    requires HasPrefix(arg, '-') && Cut(Undashed(arg), '=') == CutResult(name, [], false)
    ensures ConfigPath([arg, path] + more, name, envPath) == Success((path, more))
    ensures ConfigPath([arg], name, envPath) == Failure(MissingArguments(name))
  {
    assert ([arg, path] + more)[0] == arg && ([arg, path] + more)[1..] == [path] + more;
    assert ([path] + more)[0] == path && ([path] + more)[1..] == more;
  }

  lemma CutAtFirst(name: string, path: string)
    requires '=' !in name
    ensures Cut(name + "=" + path, '=') == CutResult(name, path, true)
  {
    var s := name + "=" + path;
    var i := Index(s, '=');
    assert s[|name|] == '=';
    assert i == |name| by {
      assert forall k :: 0 <= k < |name| ==> s[k] == name[k];
    }
    assert s[..i] == name && s[i + 1..] == path;
  }

  /** The argument a flag with a non-empty env value contributes. */
  function EnvFlag(flagName: string, value: string): string {
    "-" + flagName + "=" + value
  }

  /** `cmp.Or(os.Getenv(name), envVarsFromFile[name])` for the flag `flagName`. */
  function EnvValue(flagName: string, prefix: string, env: map<string, string>, fileEnv: map<string, string>): string {
    var name := prefix + FlagNameToEnvName(flagName);
    if Getenv(env, name) != "" then Getenv(env, name) else Getenv(fileEnv, name)
  }

  /** The arguments `VisitAll` appends for `flagNames`, in order. */
  function EnvFlags(flagNames: seq<string>, prefix: string, env: map<string, string>, fileEnv: map<string, string>): seq<string>
    decreases |flagNames|
  {
    if flagNames == [] then []
    else
      var last := flagNames[|flagNames| - 1];
      var v := EnvValue(last, prefix, env, fileEnv);
      EnvFlags(flagNames[..|flagNames| - 1], prefix, env, fileEnv) + (if v != "" then [EnvFlag(last, v)] else [])
  }

  /** The env names of the flags: `prefix + flagNameToEnvName(name)`. */
  function KnownNames(flagNames: seq<string>, prefix: string): set<string> {
    set i | 0 <= i < |flagNames| :: prefix + FlagNameToEnvName(flagNames[i])
  }

  /** Where `Parse` takes the config file from, and the arguments left after it. */
  function Locate(args: seq<string>, configName: string, prefix: string, env: map<string, string>)
    : Result<(string, seq<string>), ParseError>
  {
    if configName == "" then Success(("", args))
    else ConfigPath(args, configName, Getenv(env, prefix + FlagNameToEnvName(configName)))
  }

  /** The config file's contents, if a path was given. */
  function LoadIfNamed(configPath: string, files: map<string, string>): Result<Option<Loaded>, ConfigError> {
    if configPath == "" then Success(None)
    else
      match LoadConfig(configPath, files)
      case Failure(e) => Failure(e)
      case Success(l) => Success(Some(l))
  }

  /**
   * The argument list: the file's flag arguments, then one "-flag=value"
   * per flag with an env value, then the remaining command-line arguments;
   * unless the file set env names that no flag claims.
   */
  function Assemble(flagNames: seq<string>, prefix: string, env: map<string, string>,
                    loaded: Option<Loaded>, rest: seq<string>): Result<seq<string>, ParseError>
  {
    var fileFlags := if loaded.Some? then loaded.value.flags else [];
    var fileEnv := if loaded.Some? then loaded.value.envVars else map[];
    var unknown := fileEnv.Keys - KnownNames(flagNames, prefix);
    if loaded.Some? && unknown != {} then Failure(UnknownEnvVars(unknown))
    else Success(fileFlags + EnvFlags(flagNames, prefix, env, fileEnv) + rest)
  }

  /**
   * `Parse` up to the call of `fs.Parse`: the argument list it passes, or
   * the error it returns.
   */
  function ParseArgs(flagNames: seq<string>, args: seq<string>, configName: string, prefix: string,
                     env: map<string, string>, files: map<string, string>): Result<seq<string>, ParseError>
  {
    match Locate(args, configName, prefix, env)
    case Failure(e) => Failure(e)
    case Success(located) =>
      match LoadIfNamed(located.0, files)
      case Failure(e) => Failure(LoadFailed(e))
      case Success(loaded) => Assemble(flagNames, prefix, env, loaded, located.1)
  }

  /** The config-path lookup at the start of `Parse`: only the first argument is examined. */
  method LocateConfig(args: seq<string>, configName: string, envPath: string)
    returns (r: Result<(string, seq<string>), ParseError>)
    ensures r == ConfigPath(args, configName, envPath)
  {
    var args := args;
    var configPath := envPath;
    if |args| > 0 {
      var (arg, ok) := CutPrefix(args[0], '-');
      if ok {
        arg := CutPrefix(arg, '-').0;
        var c := Cut(arg, '=');
        if c.before == configName {
          args := args[1..];
          if !c.found && |args| == 0 {
            return Failure(MissingArguments(configName));
          }
          var fileName := c.after;
          if !c.found {
            fileName := args[0];
            args := args[1..];
          }
          configPath := fileName;
        }
      }
    }
    return Success((configPath, args));
  }

  /** `envVars` before the flags are visited: every env name of the file, marked unclaimed. */
  method MarkFileNames(fileEnv: map<string, string>) returns (envVars: map<string, bool>)
    ensures envVars.Keys == fileEnv.Keys
    ensures forall n :: n in envVars ==> envVars[n]
  {
    envVars := map[];
    var names := fileEnv.Keys;
    while names != {}
      invariant names <= fileEnv.Keys
      invariant envVars.Keys == fileEnv.Keys - names
      invariant forall n :: n in envVars ==> envVars[n]
      decreases names
    {
      var name :| name in names;
      envVars := envVars[name := true];
      names := names - {name};
    }
  }

  /** The marks after the flags with env names `known` were visited: a name stays unclaimed only if no flag claimed it. */
  function Claimed(marks: map<string, bool>, known: set<string>): map<string, bool> {
    map n | n in marks.Keys + known :: n in marks && marks[n] && n !in known
  }

  lemma ClaimOne(marks: map<string, bool>, known: set<string>, name: string)
    ensures Claimed(marks, known)[name := false] == Claimed(marks, known + {name})
  {
  }

  lemma VisitOneMore(flagNames: seq<string>, i: nat, prefix: string, env: map<string, string>, fileEnv: map<string, string>)
    requires i < |flagNames|
    ensures KnownNames(flagNames[..i + 1], prefix) == KnownNames(flagNames[..i], prefix) + {prefix + FlagNameToEnvName(flagNames[i])}
    ensures var v := EnvValue(flagNames[i], prefix, env, fileEnv);
      EnvFlags(flagNames[..i + 1], prefix, env, fileEnv)
        == EnvFlags(flagNames[..i], prefix, env, fileEnv) + (if v != "" then [EnvFlag(flagNames[i], v)] else [])
  {
    assert flagNames[..i + 1][..i] == flagNames[..i];
    assert flagNames[..i + 1][i] == flagNames[i];
  }

  /**
   * The `VisitAll` callback over every flag: marks the flag's env name as
   * claimed and appends "-flag=value" when the process env (first) or the
   * file has a non-empty value for it.
   */
  method VisitFlags(flagNames: seq<string>, prefix: string, env: map<string, string>,
                    fileEnv: map<string, string>, envVars: Option<map<string, bool>>)
    returns (added: seq<string>, claimed: Option<map<string, bool>>)
    ensures added == EnvFlags(flagNames, prefix, env, fileEnv)
    ensures claimed == if envVars.Some? then Some(Claimed(envVars.value, KnownNames(flagNames, prefix))) else None
  {
    added := [];
    claimed := envVars;
    var i := 0;
    assert envVars.Some? ==> Claimed(envVars.value, KnownNames(flagNames[..0], prefix)) == envVars.value;
    while i < |flagNames|
      invariant 0 <= i <= |flagNames|
      invariant added == EnvFlags(flagNames[..i], prefix, env, fileEnv)
      invariant claimed == if envVars.Some? then Some(Claimed(envVars.value, KnownNames(flagNames[..i], prefix))) else None
    {
      var f := flagNames[i];
      var name := prefix + FlagNameToEnvName(f);
      VisitOneMore(flagNames, i, prefix, env, fileEnv);
      if claimed.Some? {
        ClaimOne(envVars.value, KnownNames(flagNames[..i], prefix), name);
        claimed := Some(claimed.value[name := false]);
      }
      var v := if Getenv(env, name) != "" then Getenv(env, name) else Getenv(fileEnv, name);
      if v != "" {
        added := added + [EnvFlag(f, v)];
      }
      i := i + 1;
    }
    assert flagNames[..|flagNames|] == flagNames;
  }

  /** With every file name marked at first, the names left unclaimed are the file's names no flag has. */
  lemma UnclaimedNames(marks: map<string, bool>, known: set<string>)
    requires forall n :: n in marks ==> marks[n]
    ensures (set n | n in Claimed(marks, known) && Claimed(marks, known)[n]) == marks.Keys - known
  {
    var c := Claimed(marks, known);
    forall n | n in marks.Keys - known
      ensures n in c && c[n]
    {
    }
  }

  /** The names still marked unclaimed. */
  method UnknownNames(envVars: map<string, bool>) returns (unknown: set<string>)
    ensures unknown == set n | n in envVars && envVars[n]
  {
    unknown := {};
    var keys := envVars.Keys;
    while keys != {}
      invariant keys <= envVars.Keys
      invariant unknown == set n | n in envVars.Keys - keys && envVars[n]
      decreases keys
    {
      var name :| name in keys;
      if envVars[name] {
        unknown := unknown + {name};
      }
      keys := keys - {name};
    }
  }

  /**
   * Every flag with an env value contributes "-flag=value": the process
   * env's value when it has a non-empty one, the file's otherwise; and
   * nothing else is contributed.
   */
  lemma {:induction false} EnvFlagsListed(flagNames: seq<string>, prefix: string, env: map<string, string>, fileEnv: map<string, string>)
    ensures |EnvFlags(flagNames, prefix, env, fileEnv)| <= |flagNames|
    ensures forall i :: 0 <= i < |flagNames| && Getenv(env, prefix + FlagNameToEnvName(flagNames[i])) != "" ==>
              EnvFlag(flagNames[i], Getenv(env, prefix + FlagNameToEnvName(flagNames[i]))) in EnvFlags(flagNames, prefix, env, fileEnv)
    ensures forall i :: 0 <= i < |flagNames| && Getenv(env, prefix + FlagNameToEnvName(flagNames[i])) == ""
                        && Getenv(fileEnv, prefix + FlagNameToEnvName(flagNames[i])) != "" ==>
              EnvFlag(flagNames[i], Getenv(fileEnv, prefix + FlagNameToEnvName(flagNames[i]))) in EnvFlags(flagNames, prefix, env, fileEnv)
    ensures forall a :: a in EnvFlags(flagNames, prefix, env, fileEnv) ==>
              exists i :: 0 <= i < |flagNames| && EnvValue(flagNames[i], prefix, env, fileEnv) != ""
                          && a == EnvFlag(flagNames[i], EnvValue(flagNames[i], prefix, env, fileEnv))
  {
    EnvFlagsShort(flagNames, prefix, env, fileEnv);
    forall i | 0 <= i < |flagNames| && EnvValue(flagNames[i], prefix, env, fileEnv) != ""
      ensures EnvFlag(flagNames[i], EnvValue(flagNames[i], prefix, env, fileEnv)) in EnvFlags(flagNames, prefix, env, fileEnv)
    {
      EnvFlagsHas(flagNames, prefix, env, fileEnv, i);
    }
    forall a | a in EnvFlags(flagNames, prefix, env, fileEnv)
      ensures exists i :: 0 <= i < |flagNames| && EnvValue(flagNames[i], prefix, env, fileEnv) != ""
                          && a == EnvFlag(flagNames[i], EnvValue(flagNames[i], prefix, env, fileEnv))
    {
      var i := EnvFlagsFrom(flagNames, prefix, env, fileEnv, a);
    }
  }

  /** There are at most as many env flags as flags. */
  lemma {:induction false} EnvFlagsShort(flagNames: seq<string>, prefix: string, env: map<string, string>, fileEnv: map<string, string>)
    ensures |EnvFlags(flagNames, prefix, env, fileEnv)| <= |flagNames|
    decreases |flagNames|
  {
    if flagNames != [] {
      EnvFlagsShort(flagNames[..|flagNames| - 1], prefix, env, fileEnv);
    }
  }

  /** A flag with a non-empty env value contributes "-flag=<value>". */
  lemma {:induction false} EnvFlagsHas(flagNames: seq<string>, prefix: string, env: map<string, string>, fileEnv: map<string, string>, i: nat)
    requires i < |flagNames| && EnvValue(flagNames[i], prefix, env, fileEnv) != ""
    ensures EnvFlag(flagNames[i], EnvValue(flagNames[i], prefix, env, fileEnv)) in EnvFlags(flagNames, prefix, env, fileEnv)
    decreases |flagNames|
  {
    var init := flagNames[..|flagNames| - 1];
    if i < |init| {
      assert init[i] == flagNames[i];
      EnvFlagsHas(init, prefix, env, fileEnv, i);
    }
  }

  /** Every env flag comes from some flag with a non-empty env value. */
  lemma {:induction false} EnvFlagsFrom(flagNames: seq<string>, prefix: string, env: map<string, string>, fileEnv: map<string, string>, a: string)
    returns (i: nat)
    requires a in EnvFlags(flagNames, prefix, env, fileEnv)
    ensures i < |flagNames| && EnvValue(flagNames[i], prefix, env, fileEnv) != ""
    ensures a == EnvFlag(flagNames[i], EnvValue(flagNames[i], prefix, env, fileEnv))
    decreases |flagNames|
  {
    var init := flagNames[..|flagNames| - 1];
    if a in EnvFlags(init, prefix, env, fileEnv) {
      i := EnvFlagsFrom(init, prefix, env, fileEnv, a);
      assert init[i] == flagNames[i];
    } else {
      i := |flagNames| - 1;
    }
  }

  /**
   * With a config file that loads, `Parse` goes on exactly when every env
   * name the file sets belongs to a flag, and then hands over the file's
   * flag arguments, the env flags, and the remaining arguments, in that
   * order, so that later ones override earlier ones.
   */
  lemma ArgumentOrder(flagNames: seq<string>, args: seq<string>, configName: string, prefix: string,
                      env: map<string, string>, files: map<string, string>, path: string, rest: seq<string>, l: Loaded)
    requires Locate(args, configName, prefix, env) == Success((path, rest))
    requires path != "" && LoadConfig(path, files) == Success(l)
    ensures var r := ParseArgs(flagNames, args, configName, prefix, env, files);
      && (r.Success? <==> l.envVars.Keys <= KnownNames(flagNames, prefix))
      && (r.Failure? ==> r.error == UnknownEnvVars(l.envVars.Keys - KnownNames(flagNames, prefix)))
      && (r.Success? ==> r.value == l.flags + EnvFlags(flagNames, prefix, env, l.envVars) + rest)
  {
    assert LoadIfNamed(path, files) == Success(Some(l));
    var known := KnownNames(flagNames, prefix);
    assert ParseArgs(flagNames, args, configName, prefix, env, files) == Assemble(flagNames, prefix, env, Some(l), rest);
    if l.envVars.Keys <= known {
      assert l.envVars.Keys - known == {};
    } else {
      var n :| n in l.envVars.Keys && n !in known;
      assert n in l.envVars.Keys - known;
    }
  }

  /** Without a config flag name no file is read: the env flags come first, then the arguments as given. */
  lemma NoConfigFlag(flagNames: seq<string>, args: seq<string>, prefix: string, env: map<string, string>, files: map<string, string>)
    ensures ParseArgs(flagNames, args, "", prefix, env, files) == Success(EnvFlags(flagNames, prefix, env, map[]) + args)
  {
    assert [] + EnvFlags(flagNames, prefix, env, map[]) + args == EnvFlags(flagNames, prefix, env, map[]) + args;
  }

  /** `Parse`, up to handing the argument list to the flag set. */
  method Parse(flagNames: seq<string>, argsWithoutProgramName: seq<string>, configName: string, prefix: string,
               env: map<string, string>, files: map<string, string>) returns (res: Result<seq<string>, ParseError>)
    ensures res == ParseArgs(flagNames, argsWithoutProgramName, configName, prefix, env, files)
  {
    var args := argsWithoutProgramName;
    var flagsFromFile: seq<string> := [];
    var envVarsFromFile: Option<map<string, string>> := None;
    if configName != "" {
      var located := LocateConfig(args, configName, Getenv(env, prefix + FlagNameToEnvName(configName)));
      if located.Failure? {
        return Failure(located.error);
      }
      var configPath := located.value.0;
      args := located.value.1;
      if configPath != "" {
        var loaded := LoadConfigFile(configPath, files);
        if loaded.Failure? {
          return Failure(LoadFailed(loaded.error));
        }
        flagsFromFile := loaded.value.flags;
        envVarsFromFile := Some(loaded.value.envVars);
      }
    }
    ghost var loaded := if envVarsFromFile.Some? then Some(Loaded(flagsFromFile, envVarsFromFile.value)) else None;
    assert Locate(argsWithoutProgramName, configName, prefix, env).Success?;
    assert LoadIfNamed(Locate(argsWithoutProgramName, configName, prefix, env).value.0, files) == Success(loaded);
    res := AddEnvFlags(flagNames, prefix, env, flagsFromFile, envVarsFromFile, args);
  }

  /**
   * The second half of `Parse`: mark the file's env names, add the env flags,
   * reject unclaimed names, and prepend the file's flags to the arguments.
   */
  method AddEnvFlags(flagNames: seq<string>, prefix: string, env: map<string, string>,
                     fromFile: seq<string>, envVarsFromFile: Option<map<string, string>>, args: seq<string>)
    returns (res: Result<seq<string>, ParseError>)
    requires envVarsFromFile.None? ==> fromFile == []
    ensures res == Assemble(flagNames, prefix, env,
                            if envVarsFromFile.Some? then Some(Loaded(fromFile, envVarsFromFile.value)) else None, args)
  {
    var flagsFromFile := fromFile;
    var fileEnv := if envVarsFromFile.Some? then envVarsFromFile.value else map[];
    var envVars: Option<map<string, bool>> := None;
    var marked := map[];
    if envVarsFromFile.Some? {
      marked := MarkFileNames(fileEnv);
      envVars := Some(marked);
    }
    var added;
    added, envVars := VisitFlags(flagNames, prefix, env, fileEnv, envVars);
    flagsFromFile := flagsFromFile + added;
    if envVars.Some? {
      var unknown := UnknownNames(envVars.value);
      UnclaimedNames(marked, KnownNames(flagNames, prefix));
      if unknown != {} {
        return Failure(UnknownEnvVars(unknown));
      }
    }
    return Success(flagsFromFile + args);
  }
}
