/**
 * The seed wrapper's configuration handling (scripts/run-seed.js): splitting
 * the `.env` text into lines, matching `key=value` lines, collecting them
 * into an insertion-ordered map where later lines win, the required-variable
 * check, and the command line it builds. Reading the file and running the
 * command are not modelled.
 */
module RunSeed {
  import opened Outcomes

  // ---------------------------------------------------------------------------
  // Characters

  /** The characters a regular-expression `.` does not match: the four line terminators. */
  predicate IsLineTerminator(c: char) {
    c == '\n' || c == '\r' || c == '\U{2028}' || c == '\U{2029}'
  }

  /** The characters `String.prototype.trim` removes: white space and line terminators. */
  predicate IsJsSpace(c: char) {
    c == '\t' || c == '\U{B}' || c == '\U{C}' || c == ' ' || c == '\U{A0}' || c == '\U{FEFF}'
    || c == '\U{1680}' || ('\U{2000}' <= c <= '\U{200A}') || c == '\U{202F}' || c == '\U{205F}'
    || c == '\U{3000}' || IsLineTerminator(c)
  }

  /** The position of the first `c` in `s`, if any. */
  function IndexOf(s: string, c: char): (r: Option<nat>)
    ensures r.None? <==> c !in s
    ensures r.Some? ==> r.value < |s| && s[r.value] == c && c !in s[..r.value]
  {
    if |s| == 0 then None
    else if s[0] == c then Some(0)
    else
      var rest := IndexOf(s[1..], c);
      match rest
      case None => None
      case Some(k) =>
        assert s[..k + 1] == [s[0]] + s[1..][..k];
        Some(k + 1)
  }

  /** Whether `s` holds a line terminator anywhere. */
  function HasLineTerminator(s: string): (b: bool)
    ensures b <==> exists i :: 0 <= i < |s| && IsLineTerminator(s[i])
  {
    if |s| == 0 then false
    else if IsLineTerminator(s[0]) then true
    else
      assert forall i :: 1 <= i < |s| ==> s[i] == s[1..][i - 1];
      HasLineTerminator(s[1..])
  }

  // ---------------------------------------------------------------------------
  // Lines

  /** `text.split("\n")`: always at least one piece, none holding a newline. */
  function SplitLines(text: string): (lines: seq<string>)
    ensures |lines| >= 1
    ensures forall i :: 0 <= i < |lines| ==> '\n' !in lines[i]
    ensures JoinLines(lines) == text
    decreases |text|
  {
    match IndexOf(text, '\n')
    case None => [text]
    case Some(k) =>
      var rest := SplitLines(text[k + 1..]);
      assert text == text[..k] + "\n" + text[k + 1..];
      [text[..k]] + rest
  }

  /** The inverse of splitting: the lines glued back with newlines. */
  function JoinLines(lines: seq<string>): string {
    if |lines| == 0 then ""
    else if |lines| == 1 then lines[0]
    else lines[0] + "\n" + JoinLines(lines[1..])
  }

  /** Splitting undoes joining for any non-empty list of newline-free lines. */
  lemma {:induction false} SplitJoinLines(lines: seq<string>)
    requires |lines| >= 1
    requires forall i :: 0 <= i < |lines| ==> '\n' !in lines[i]
    ensures SplitLines(JoinLines(lines)) == lines
    decreases |lines|
  {
    if |lines| == 1 {
      assert IndexOf(lines[0], '\n').None?;
    } else {
      var text := JoinLines(lines);
      var k := |lines[0]|;
      assert text == lines[0] + "\n" + JoinLines(lines[1..]);
      assert text[..k] == lines[0];
      assert text[k] == '\n';
      assert IndexOf(text, '\n') == Some(k);
      assert text[k + 1..] == JoinLines(lines[1..]);
      SplitJoinLines(lines[1..]);
    }
  }

  // ---------------------------------------------------------------------------
  // Trimming

  /** Leading white space removed. */
  function TrimStart(s: string): (r: string)
    ensures |r| <= |s| && r == s[|s| - |r|..]
    ensures |r| > 0 ==> !IsJsSpace(r[0])
    ensures forall i :: 0 <= i < |s| - |r| ==> IsJsSpace(s[i])
  {
    if |s| > 0 && IsJsSpace(s[0]) then
      var r := TrimStart(s[1..]);
      assert forall i :: 1 <= i < |s| - |r| ==> s[i] == s[1..][i - 1];
      r
    else s
  }

  /** Trailing white space removed. */
  function TrimEnd(s: string): (r: string)
    ensures |r| <= |s| && r == s[..|r|]
    ensures |r| > 0 ==> !IsJsSpace(r[|r| - 1])
    ensures forall i :: |r| <= i < |s| ==> IsJsSpace(s[i])
  {
    if |s| > 0 && IsJsSpace(s[|s| - 1]) then
      var r := TrimEnd(s[..|s| - 1]);
      assert r == s[..|r|];
      r
    else s
  }

  /** How many leading white-space characters `trim` drops. */
  function TrimOffset(s: string): (a: nat)
    ensures a <= |s|
  {
    |s| - |TrimStart(s)|
  }

  /**
   * `s.trim()`: the piece of `s` that starts at the first character that is
   * not white space and ends at the last one; everything around it is white space.
   */
  function Trim(s: string): (r: string)
    ensures TrimOffset(s) + |r| <= |s| && r == s[TrimOffset(s)..TrimOffset(s) + |r|]
    ensures |r| > 0 ==> !IsJsSpace(r[0]) && !IsJsSpace(r[|r| - 1])
    ensures forall i :: 0 <= i < TrimOffset(s) ==> IsJsSpace(s[i])
    ensures forall i :: TrimOffset(s) + |r| <= i < |s| ==> IsJsSpace(s[i])
  {
    var t := TrimStart(s);
    var r := TrimEnd(t);
    TrailingSpaceShifts(s, |s| - |t|, t, r);
    r
  }

  /** White space after `r` inside the suffix `t` of `s` is white space of `s`. */
  lemma TrailingSpaceShifts(s: string, a: nat, t: string, r: string)
    requires a <= |s| && t == s[a..]
    requires |r| <= |t| && r == t[..|r|]
    requires forall i :: |r| <= i < |t| ==> IsJsSpace(t[i])
    ensures a + |r| <= |s| && r == s[a..a + |r|]
    ensures forall i :: a + |r| <= i < |s| ==> IsJsSpace(s[i])
  {
    forall i | a + |r| <= i < |s|
      ensures IsJsSpace(s[i])
    {
      assert s[i] == t[i - a];
    }
  }

  /** A character absent from `s` is absent from its trimmed form. */
  lemma TrimKeepsAbsent(s: string, c: char)
    requires c !in s
    ensures c !in Trim(s)
  {
  }

  /** A string free of line terminators stays free of them once trimmed. */
  lemma TrimKeepsNoTerminator(s: string)
    requires forall i :: 0 <= i < |s| ==> !IsLineTerminator(s[i])
    ensures forall i :: 0 <= i < |Trim(s)| ==> !IsLineTerminator(Trim(s)[i])
  {
    var r := Trim(s);
    forall i | 0 <= i < |r|
      ensures !IsLineTerminator(r[i])
    {
      assert r[i] == s[TrimOffset(s) + i];
    }
  }

  /** Trimming what is already trimmed changes nothing. */
  lemma TrimIdempotent(s: string)
    ensures Trim(Trim(s)) == Trim(s)
  {
    var r := Trim(s);
    if |r| > 0 {
      assert TrimStart(r) == r;
      assert TrimEnd(r) == r;
    }
  }

  // ---------------------------------------------------------------------------
  // One line

  /**
   * `line.match(/^([^=]+)=(.*)$/)`, then both groups trimmed. The key is the
   * trimmed text before the first `=`, so it holds no `=` (though it may be
   * empty when only white space precedes the `=`); the value is the trimmed
   * rest, which holds no line terminator because `.` matches none.
   */
  function ParseLine(line: string): (r: Option<(string, string)>)
    ensures r.Some? ==> '=' !in r.value.0
    ensures r.Some? ==> forall i :: 0 <= i < |r.value.1| ==> !IsLineTerminator(r.value.1[i])
  {
    match IndexOf(line, '=')
    case None => None
    case Some(k) =>
      if k == 0 then None
      else if HasLineTerminator(line[k + 1..]) then None
      else
        var key := line[..k];
        var rest := line[k + 1..];
        TrimKeepsAbsent(key, '=');
        TrimKeepsNoTerminator(rest);
        Some((Trim(key), Trim(rest)))
  }

  /** The first `=` is the only `=` with none before it. */
  lemma FirstEqualsUnique(line: string, k: nat, m: nat)
    requires k < |line| && line[k] == '=' && '=' !in line[..k]
    requires m < |line| && line[m] == '=' && '=' !in line[..m]
    ensures k == m
  {
  }

  /**
   * `/^([^=]+)=(.*)$/` matches with its `=` at position `k`: a non-empty run
   * of characters other than `=` before it, and no line terminator after it.
   */
  predicate RegexMatchesAt(line: string, k: int) {
    0 < k < |line| && line[k] == '=' && '=' !in line[..k]
    && forall i :: k < i < |line| ==> !IsLineTerminator(line[i])
  }

  /** Where the pattern matches, the pair is the trimmed text on either side of the `=` it matched. */
  lemma ParseLineSplitsAtMatch(line: string, k: nat)
    requires RegexMatchesAt(line, k)
    ensures ParseLine(line) == Some((Trim(line[..k]), Trim(line[k + 1..])))
  {
    FirstEqualsUnique(line, IndexOf(line, '=').value, k);
    var rest := line[k + 1..];
    assert !HasLineTerminator(rest) by {
      assert forall j :: 0 <= j < |rest| ==> rest[j] == line[k + 1 + j];
    }
  }

  /** A line that matches was matched by the pattern at its first `=`. */
  lemma MatchedAtFirstEquals(line: string)
    requires ParseLine(line).Some?
    ensures IndexOf(line, '=').Some? && RegexMatchesAt(line, IndexOf(line, '=').value)
  {
    var k := IndexOf(line, '=').value;
    var rest := line[k + 1..];
    assert k > 0 && !HasLineTerminator(rest);
    assert forall i :: k < i < |line| ==> line[i] == rest[i - k - 1];
  }

  /** A line matches exactly when the pattern matches it somewhere. */
  lemma ParseLineMatchesRegex(line: string)
    ensures ParseLine(line).Some? <==> exists k :: RegexMatchesAt(line, k)
  {
    if ParseLine(line).Some? {
      MatchedAtFirstEquals(line);
    }
    if exists k :: RegexMatchesAt(line, k) {
      var k :| RegexMatchesAt(line, k);
      ParseLineSplitsAtMatch(line, k);
    }
  }

  /**
   * A line whose `=` follows only white space (`" =x"`, say) still matches,
   * and stores its trimmed value under the empty key.
   */
  lemma BlankKeyIsEmpty(pad: string, rest: string)
    requires |pad| > 0 && forall i :: 0 <= i < |pad| ==> IsJsSpace(pad[i])
    requires forall i :: 0 <= i < |rest| ==> !IsLineTerminator(rest[i])
    ensures ParseLine(pad + "=" + rest) == Some(("", Trim(rest)))
  {
    var line := pad + "=" + rest;
    assert line[|pad|] == '=';
    var k := IndexOf(line, '=').value;
    assert k == |pad|;
    assert line[..k] == pad && line[k + 1..] == rest;
    assert TrimStart(pad) == [];
  }

  /** A line of a file saved with CRLF endings keeps its `\r`, so it never matches. */
  lemma CarriageReturnLineIgnored(line: string)
    ensures ParseLine(line + "\r") == None
  {
    var l := line + "\r";
    assert IsLineTerminator(l[|l| - 1]);
    assert IndexOf(l, '=').Some? ==> IndexOf(l, '=').value < |l| - 1;
  }

  // ---------------------------------------------------------------------------
  // The variable map

  /**
   * `envVars`: a JavaScript object, that is the values by key together with
   * the order in which keys were first stored.
   */
  datatype Env = Env(order: seq<string>, values: map<string, string>)

  /** The object before any line is read. */
  const EmptyEnv: Env := Env([], map[])

  /** Every stored key appears in the order exactly once, and nothing else does. */
  predicate WellFormed(env: Env) {
    (forall i, j :: 0 <= i < j < |env.order| ==> env.order[i] != env.order[j])
    && (forall i :: 0 <= i < |env.order| ==> env.order[i] in env.values)
    && (forall k :: k in env.values ==> k in env.order)
  }

  /** `envVars[key]`: the value stored under the key, if any. */
  function Lookup(env: Env, key: string): Option<string> {
    if key in env.values then Some(env.values[key]) else None
  }

  /**
   * The one key a plain JavaScript object does not store as its own: an
   * assignment to it goes to the inherited prototype setter, which ignores
   * a string value.
   */
  const ProtoKey: string := "__proto__"

  /**
   * `envVars[key] = value`: an existing key keeps its place and takes the new
   * value; a new key goes to the end of the order; `__proto__` is not stored.
   */
  function Put(env: Env, key: string, value: string): (r: Env)
    ensures key == ProtoKey ==> r == env
    ensures key != ProtoKey ==> Lookup(r, key) == Some(value)
    ensures forall k :: k != key ==> Lookup(r, k) == Lookup(env, k)
    ensures key != ProtoKey && key in env.values ==> r.order == env.order
    ensures key != ProtoKey && key !in env.values ==> r.order == env.order + [key]
    ensures WellFormed(env) ==> WellFormed(r)
  {
    if key == ProtoKey then env
    else Env(if key in env.values then env.order else env.order + [key], env.values[key := value])
  }

  /** One line read: a matching line stores its pair, any other line is skipped. */
  function Step(env: Env, line: string): (r: Env)
    ensures ParseLine(line).None? ==> r == env
    ensures ParseLine(line).Some? && ParseLine(line).value.0 != ProtoKey ==>
      Lookup(r, ParseLine(line).value.0) == Some(ParseLine(line).value.1)
    ensures ParseLine(line).Some? && ParseLine(line).value.0 == ProtoKey ==> r == env
    ensures WellFormed(env) ==> WellFormed(r)
  {
    match ParseLine(line)
    case None => env
    case Some(kv) => Put(env, kv.0, kv.1)
  }

  /** The lines read in order. */
  function ParseLines(env: Env, lines: seq<string>): Env
    decreases |lines|
  {
    if |lines| == 0 then env else ParseLines(Step(env, lines[0]), lines[1..])
  }

  /** `envVars` after reading the whole file. */
  function ParseEnv(text: string): (env: Env)
    ensures WellFormed(env)
  {
    ParseLinesWellFormed(EmptyEnv, SplitLines(text));
    ParseLines(EmptyEnv, SplitLines(text))
  }

  /** Reading lines never duplicates or loses a key. */
  lemma {:induction false} ParseLinesWellFormed(env: Env, lines: seq<string>)
    requires WellFormed(env)
    ensures WellFormed(ParseLines(env, lines))
    decreases |lines|
  {
    if |lines| > 0 {
      ParseLinesWellFormed(Step(env, lines[0]), lines[1..]);
    }
  }

  /** Reading two blocks of lines is reading the first, then the second. */
  lemma {:induction false} ParseLinesConcat(env: Env, a: seq<string>, b: seq<string>)
    ensures ParseLines(env, a + b) == ParseLines(ParseLines(env, a), b)
    decreases |a|
  {
    if |a| > 0 {
      assert (a + b)[0] == a[0] && (a + b)[1..] == a[1..] + b;
      ParseLinesConcat(Step(env, a[0]), a[1..], b);
    } else {
      assert a + b == b;
    }
  }

  /** A matching last line decides its key's value, whatever came before; a last `__proto__` line is without effect. */
  lemma LaterLineWins(env: Env, lines: seq<string>, line: string)
    requires ParseLine(line).Some?
    ensures ParseLine(line).value.0 != ProtoKey ==>
      Lookup(ParseLines(env, lines + [line]), ParseLine(line).value.0) == Some(ParseLine(line).value.1)
    ensures ParseLine(line).value.0 == ProtoKey ==> ParseLines(env, lines + [line]) == ParseLines(env, lines)
  {
    ParseLinesConcat(env, lines, [line]);
  }

  /** Lines that do not match leave the map as it was; a CRLF file therefore yields no variables. */
  lemma {:induction false} CarriageReturnLinesAddNothing(env: Env, lines: seq<string>)
    requires forall i :: 0 <= i < |lines| ==> |lines[i]| > 0 && lines[i][|lines[i]| - 1] == '\r'
    ensures ParseLines(env, lines) == env
    decreases |lines|
  {
    if |lines| > 0 {
      var l := lines[0];
      assert l == l[..|l| - 1] + "\r";
      CarriageReturnLineIgnored(l[..|l| - 1]);
      CarriageReturnLinesAddNothing(env, lines[1..]);
    }
  }

  // ---------------------------------------------------------------------------
  // The check and the command

  /** The variables the seed script cannot run without. */
  const RequiredVars: seq<string> := ["VITE_SUPABASE_URL", "VITE_SUPABASE_ANON_KEY"]

  /** The first required variable that is missing or empty; `None` when the check passes. */
  function MissingVar(env: Env): (r: Option<string>)
    ensures r.None? <==> forall i :: 0 <= i < |RequiredVars| ==> Truthy(Lookup(env, RequiredVars[i]))
    ensures r.Some? ==> exists i :: 0 <= i < |RequiredVars| && r.value == RequiredVars[i]
                                   && !Truthy(Lookup(env, RequiredVars[i]))
                                   && forall j :: 0 <= j < i ==> Truthy(Lookup(env, RequiredVars[j]))
  {
    if !Truthy(Lookup(env, RequiredVars[0])) then Some(RequiredVars[0])
    else if !Truthy(Lookup(env, RequiredVars[1])) then Some(RequiredVars[1])
    else None
  }

  /** The map of a file without any line is empty, so the check names the URL first. */
  lemma EmptyFileFailsOnUrl()
    ensures MissingVar(ParseEnv("")) == Some("VITE_SUPABASE_URL")
  {
    assert SplitLines("") == [""];
    assert ParseLine("").None?;
  }

  /** The `key=value` text of each stored key, in the object's order. */
  function Pairs(env: Env): (ps: seq<string>)
    requires WellFormed(env)
    ensures |ps| == |env.order|
    ensures forall i :: 0 <= i < |ps| ==> ps[i] == env.order[i] + "=" + env.values[env.order[i]]
  {
    seq(|env.order|, i requires 0 <= i < |env.order| => env.order[i] + "=" + env.values[env.order[i]])
  }

  /** `parts.join(" ")`: the first part leads, and a space follows it when more come. */
  function JoinSpaces(parts: seq<string>): (s: string)
    ensures |parts| == 0 ==> s == ""
    ensures |parts| > 0 ==> |parts[0]| <= |s| && s[..|parts[0]|] == parts[0]
    ensures |parts| > 1 ==> |parts[0]| < |s| && s[|parts[0]|] == ' '
  {
    if |parts| == 0 then ""
    else if |parts| == 1 then parts[0]
    else parts[0] + " " + JoinSpaces(parts[1..])
  }

  /** Joining one more part adds it after a single space. */
  lemma {:induction false} JoinSpacesSnoc(parts: seq<string>, p: string)
    requires |parts| > 0
    ensures JoinSpaces(parts + [p]) == JoinSpaces(parts) + " " + p
    decreases |parts|
  {
    if |parts| > 1 {
      assert (parts + [p])[1..] == parts[1..] + [p];
      JoinSpacesSnoc(parts[1..], p);
    } else {
      assert (parts + [p])[1..] == [p];
    }
  }

  /**
   * `envString`: the pairs joined by single spaces. It is empty exactly when
   * no variable is stored, and otherwise starts with the first stored pair.
   */
  function EnvString(env: Env): (s: string)
    requires WellFormed(env)
    ensures s == "" <==> |env.order| == 0
    ensures |env.order| > 0 ==> |Pairs(env)[0]| <= |s| && s[..|Pairs(env)[0]|] == Pairs(env)[0]
    ensures |env.order| == 1 ==> s == Pairs(env)[0]
  {
    JoinSpaces(Pairs(env))
  }

  /** The command the wrapper runs. */
  const SeedSuffix: string := " node scripts/seed-meals.js"

  /** The command line: the variable pairs, then the seed script. */
  function Command(env: Env): (c: string)
    requires WellFormed(env)
    ensures |c| >= |SeedSuffix| && c[|c| - |SeedSuffix|..] == SeedSuffix
    ensures c[..|c| - |SeedSuffix|] == EnvString(env)
  {
    EnvString(env) + SeedSuffix
  }

  /** A new key's pair joins the pairs at the end. */
  lemma PairsAfterNewKey(env: Env, key: string, value: string)
    requires WellFormed(env) && key !in env.values && key != ProtoKey
    ensures Pairs(Put(env, key, value)) == Pairs(env) + [key + "=" + value]
  {
    var r := Put(env, key, value);
    var p, q := Pairs(r), Pairs(env) + [key + "=" + value];
    forall i | 0 <= i < |p|
      ensures p[i] == q[i]
    {
      if i < |env.order| {
        assert r.order[i] == env.order[i] && env.order[i] != key;
      } else {
        assert r.order[i] == key;
      }
    }
  }

  /**
   * Storing a new key after at least one other adds its pair to the end of
   * the command's variable list; `__proto__` adds nothing.
   */
  lemma PutNewKeyAppendsPair(env: Env, key: string, value: string)
    requires WellFormed(env) && key !in env.values && |env.order| > 0
    ensures key != ProtoKey ==> EnvString(Put(env, key, value)) == EnvString(env) + " " + key + "=" + value
    ensures key == ProtoKey ==> EnvString(Put(env, key, value)) == EnvString(env)
  {
    if key != ProtoKey {
      var pair := key + "=" + value;
      PairsAfterNewKey(env, key, value);
      JoinSpacesSnoc(Pairs(env), pair);
      assert EnvString(env) + " " + key + "=" + value == EnvString(env) + " " + pair;
    }
  }

  /** Overwriting a key keeps every pair in its place; only the key's own pair takes the new value. */
  lemma PutExistingKeyKeepsPairs(env: Env, key: string, value: string)
    requires WellFormed(env) && key in env.values
    ensures |Pairs(Put(env, key, value))| == |Pairs(env)|
    ensures forall i :: 0 <= i < |env.order| ==>
      Pairs(Put(env, key, value))[i] == if env.order[i] == key && key != ProtoKey then key + "=" + value else Pairs(env)[i]
  {
  }
}
