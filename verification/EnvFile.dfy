/**
 The `.env` file: the updater of the admin page (app/services/admin_settings_service.py) and the fallback
 parser that reads the file back at start-up (app/core/config.py).
 */
module EnvFile {
  import opened Common
  import opened Text

  /** One entry of the updates dictionary, which keeps its insertion order. */
  datatype Pair = Pair(key: string, value: string)

  // ---------- one line ----------

  function Stripped(line: string): string { Strip(Spaces, line) }

  /** Blank lines, comments and lines without '=' carry no setting. */
  predicate Ignored(line: string) {
    Stripped(line) == "" || Stripped(line)[0] == '#' || '=' !in Stripped(line)
  }

  /** What the updater takes for the key: everything before the first '='. */
  function RawKey(line: string): string { Stripped(line)[..Find(Stripped(line), '=')] }

  /** What the parser takes for the key. */
  function ParsedKey(line: string): string { Strip(Spaces, RawKey(line)) }

  function ParseValue(raw: string): string { Strip(Only('\''), Strip(Only('"'), Strip(Spaces, raw))) }

  function ParsedValue(line: string): string
    requires !Ignored(line)
  {
    ParseValue(Stripped(line)[Find(Stripped(line), '=') + 1..])
  }

  predicate NeedsQuotes(value: string) { ' ' in value || '#' in value }

  function FormatValue(value: string): string {
    if NeedsQuotes(value) then ['"'] + value + ['"'] else value
  }

  function Entry(p: Pair): string { p.key + ['='] + FormatValue(p.value) }

  // ---------- the updates dictionary ----------

  function IndexOf(us: seq<Pair>, key: string): (i: nat)
    ensures i <= |us|
    ensures i < |us| ==> us[i].key == key
    ensures forall k :: 0 <= k < i ==> us[k].key != key
  {
    if us == [] then 0 else if us[0].key == key then 0 else 1 + IndexOf(us[1..], key)
  }

  predicate Has(us: seq<Pair>, key: string) { IndexOf(us, key) < |us| }

  function Get(us: seq<Pair>, key: string): string
    requires Has(us, key)
  {
    us[IndexOf(us, key)].value
  }

  function Pop(us: seq<Pair>, key: string): seq<Pair>
    requires Has(us, key)
  {
    us[..IndexOf(us, key)] + us[IndexOf(us, key) + 1..]
  }

  function Entries(us: seq<Pair>): seq<string> { if us == [] then [] else [Entry(us[0])] + Entries(us[1..]) }

  // ---------- the updater and the parser, line by line ----------

  function Update(lines: seq<string>, remaining: seq<Pair>): seq<string>
    decreases |lines|
  {
    if lines == [] then Entries(remaining)
    else if !Ignored(lines[0]) && Has(remaining, RawKey(lines[0])) then
      var key := RawKey(lines[0]);
      [Entry(Pair(key, Get(remaining, key)))] + Update(lines[1..], Pop(remaining, key))
    else [lines[0]] + Update(lines[1..], remaining)
  }

  function Parse(lines: seq<string>, env: map<string, string>): map<string, string> {
    if lines == [] then env
    else if Ignored(lines[0]) || ParsedKey(lines[0]) in env then Parse(lines[1..], env)
    else Parse(lines[1..], env[ParsedKey(lines[0]) := ParsedValue(lines[0])])
  }

  // ---------- the file ----------

  function FirstBreak(s: string): (i: nat)
    ensures i <= |s|
    ensures i < |s| ==> IsBreak(s[i])
    ensures forall k :: 0 <= k < i ==> !IsBreak(s[k])
  {
    if s == [] || IsBreak(s[0]) then 0 else 1 + FirstBreak(s[1..])
  }

  /** Where the line after the first break of `s` starts. */
  function AfterBreak(s: string): (n: nat)
    requires FirstBreak(s) < |s|
    ensures FirstBreak(s) < n <= |s|
  {
    var i := FirstBreak(s);
    if s[i] == '\r' && i + 1 < |s| && s[i + 1] == '\n' then i + 2 else i + 1
  }

  /** `str.splitlines()`. */
  function SplitLines(s: string): seq<string> {
    if s == [] then []
    else
      var i := FirstBreak(s);
      if i == |s| then [s]
      else [s[..i]] + SplitLines(s[AfterBreak(s)..])
  }

  /** `"\n".join(lines) + "\n"`. */
  function JoinLines(lines: seq<string>): string {
    if |lines| == 0 then ['\n']
    else if |lines| == 1 then lines[0] + ['\n']
    else lines[0] + ['\n'] + JoinLines(lines[1..])
  }

  function UpdateText(text: string, updates: seq<Pair>): string { JoinLines(Update(SplitLines(text), updates)) }

  function ParseText(text: string): map<string, string> { Parse(SplitLines(text), map[]) }

  /** The first loop of `update_env_file`: rewrite the lines that set a key still to be updated. */
  method RewriteLines(lines: seq<string>, updates: seq<Pair>) returns (newLines: seq<string>, remaining: seq<Pair>)
    ensures newLines + Entries(remaining) == Update(lines, updates)
  {
    newLines, remaining := [], updates;
    var i := 0;
    assert lines[0..] == lines;
    while i < |lines|
      invariant 0 <= i <= |lines|
      invariant newLines + Update(lines[i..], remaining) == Update(lines, updates)
    {
      var line, key := lines[i], "";
      UpdateStep(lines, i, remaining, newLines);
      if Ignored(line) {
        newLines := newLines + [line];
      } else {
        key := RawKey(line);
        if Has(remaining, key) {
          newLines, remaining := newLines + [Entry(Pair(key, Get(remaining, key)))], Pop(remaining, key);
        } else {
          newLines := newLines + [line];
        }
      }
      i := i + 1;
    }
  }

  lemma UpdateStep(lines: seq<string>, i: nat, remaining: seq<Pair>, sofar: seq<string>)
    requires i < |lines|
    ensures sofar + Update(lines[i..], remaining)
            == if !Ignored(lines[i]) && Has(remaining, RawKey(lines[i]))
               then sofar + [Entry(Pair(RawKey(lines[i]), Get(remaining, RawKey(lines[i]))))]
                    + Update(lines[i + 1..], Pop(remaining, RawKey(lines[i])))
               else sofar + [lines[i]] + Update(lines[i + 1..], remaining)
  {
    assert lines[i..][0] == lines[i] && lines[i..][1..] == lines[i + 1..];
    if !Ignored(lines[i]) && Has(remaining, RawKey(lines[i])) {
      ConcatAssociative(sofar, [Entry(Pair(RawKey(lines[i]), Get(remaining, RawKey(lines[i]))))],
                        Update(lines[i + 1..], Pop(remaining, RawKey(lines[i]))));
    } else {
      ConcatAssociative(sofar, [lines[i]], Update(lines[i + 1..], remaining));
    }
  }

  /** `update_env_file`, on the text of the file (empty if there is none). */
  method UpdateEnvFile(text: string, updates: seq<Pair>) returns (out: string)
    ensures out == UpdateText(text, updates)
  {
    var newLines, remaining := RewriteLines(SplitLines(text), updates);
    var i := 0;
    assert remaining[0..] == remaining;
    while i < |remaining|
      invariant 0 <= i <= |remaining|
      invariant newLines + Entries(remaining[i..]) == Update(SplitLines(text), updates)
    {
      assert remaining[i..][0] == remaining[i] && remaining[i..][1..] == remaining[i + 1..];
      ConcatAssociative(newLines, [Entry(remaining[i])], Entries(remaining[i + 1..]));
      newLines := newLines + [Entry(remaining[i])];
      i := i + 1;
    }
    assert newLines + [] == newLines;
    out := JoinLines(newLines);
  }

  /** The fallback parser of `_load_dotenv_if_present`: the first setting of a key wins. */
  method LoadDotenv(text: string, env: map<string, string>) returns (out: map<string, string>)
    ensures out == Parse(SplitLines(text), env)
  {
    var lines := SplitLines(text);
    out := env;
    var i := 0;
    while i < |lines|
      invariant 0 <= i <= |lines|
      invariant Parse(lines[i..], out) == Parse(lines, env)
    {
      assert lines[i..][0] == lines[i] && lines[i..][1..] == lines[i + 1..];
      if !Ignored(lines[i]) && ParsedKey(lines[i]) !in out {
        out := out[ParsedKey(lines[i]) := ParsedValue(lines[i])];
      }
      i := i + 1;
    }
  }

  // ---------- one value there and back ----------

  /**
   A value survives being written and parsed iff it has no quote at either end and, unless it is going
   to be wrapped in quotes, no whitespace at either end.
   */
  predicate Survives(value: string) {
    && Clean(Only('"'), value) && Clean(Only('\''), value)
    && (NeedsQuotes(value) || Clean(Spaces, value))
  }

  lemma ValueRoundTrip(value: string)
    ensures ParseValue(FormatValue(value)) == value <==> Survives(value)
  {
    var w := FormatValue(value);
    var a := Strip(Spaces, w);
    var b := Strip(Only('"'), a);
    StripShrinks(Spaces, w);
    StripShrinks(Only('"'), a);
    StripShrinks(Only('\''), b);
    StripFixes(Only('\''), value);
    StripFixes(Only('"'), value);
    if NeedsQuotes(value) {
      StripIsClean(Spaces, w);
      StripWrapped(Only('"'), '"', value, '"');
      StripShrinks(Only('"'), value);
    } else {
      StripFixes(Spaces, value);
    }
  }

  /** A value with a space or a '#' in it is written in double quotes, and any other one as it is. */
  lemma WrittenIs(value: string)
    ensures FormatValue(value) == value <==> ' ' !in value && '#' !in value
    ensures ' ' in value || '#' in value ==>
              |FormatValue(value)| == |value| + 2 && FormatValue(value)[0] == FormatValue(value)[|value| + 1] == '"'
              && FormatValue(value)[1..|value| + 1] == value
  {
    if NeedsQuotes(value) { assert |FormatValue(value)| == |value| + 2; }
  }

  // ---------- one entry ----------

  /** A key as the settings use them: not empty, no '=', no surrounding whitespace, not a comment, one line. */
  predicate GoodKey(key: string) {
    key != "" && '=' !in key && key[0] != '#' && Clean(Spaces, key) && NoBreak(key)
  }

  predicate NoBreak(s: string) { forall i :: 0 <= i < |s| ==> !IsBreak(s[i]) }

  /** A line `raw=w` whose key part starts like a key is read as that key part and the value of `w`. */
  lemma LineIsRead(raw: string, w: string)
    requires raw != "" && '=' !in raw && raw[0] != '#' && !IsSpace(raw[0])
    ensures !Ignored(raw + ['='] + w) && RawKey(raw + ['='] + w) == raw
    ensures ParsedValue(raw + ['='] + w) == ParseValue(w)
  {
    var line := raw + ['='] + w;
    assert TrimLeft(Spaces, line) == line;
    TrimRightStops(Spaces, raw, '=', w);
    var s := Stripped(line);
    assert s == raw + ['='] + TrimRight(Spaces, w);
    FindIsFirst(s, '=', |raw|);
    assert s[|raw|] == '=' && s[..|raw|] == raw && s[|raw| + 1..] == TrimRight(Spaces, w);
    StripAfterTrim(Spaces, w);
  }

  lemma EntryIsRead(p: Pair)
    requires GoodKey(p.key)
    ensures !Ignored(Entry(p)) && RawKey(Entry(p)) == p.key && ParsedKey(Entry(p)) == p.key
    ensures ParsedValue(Entry(p)) == ParseValue(FormatValue(p.value))
  {
    LineIsRead(p.key, FormatValue(p.value));
    StripFixes(Spaces, p.key);
  }

  // ---------- the updates dictionary ----------

  ghost predicate Good(us: seq<Pair>) {
    && (forall i :: 0 <= i < |us| ==> GoodKey(us[i].key))
    && forall i, j :: 0 <= i < j < |us| ==> us[i].key != us[j].key
  }

  lemma PopIs(us: seq<Pair>, key: string, other: string)
    requires Good(us) && Has(us, key)
    ensures Good(Pop(us, key))
    ensures Has(Pop(us, key), other) <==> other != key && Has(us, other)
    ensures other != key && Has(us, other) ==> Get(Pop(us, key), other) == Get(us, other)
  {
    var n, left := IndexOf(us, key), Pop(us, key);
    PopAt(us, key);
    if other != key && Has(us, other) {
      var i := IndexOf(us, other);
      FirstWithKey(left, if i < n then i else i - 1);
    }
  }

  lemma PopAt(us: seq<Pair>, key: string)
    requires Good(us) && Has(us, key)
    ensures var left := Pop(us, key);
            && |left| == |us| - 1 && Good(left)
            && forall i :: 0 <= i < |left| ==>
                 left[i] == us[if i < IndexOf(us, key) then i else i + 1] && left[i].key != key
  {
    var n, left := IndexOf(us, key), Pop(us, key);
    forall i | 0 <= i < |left| ensures left[i] == us[if i < n then i else i + 1] {}
  }

  /** Keys are distinct, so the entry with a key is the first one with it. */
  lemma FirstWithKey(us: seq<Pair>, i: nat)
    requires Good(us) && i < |us|
    ensures IndexOf(us, us[i].key) == i
  {
  }

  // ---------- what the parser makes of a file ----------

  predicate Sets(line: string, key: string) { !Ignored(line) && ParsedKey(line) == key }

  /** The value the first line that sets `key` gives it. */
  function ValueOf(lines: seq<string>, key: string): Option<string> {
    if lines == [] then None
    else if Sets(lines[0], key) then Some(ParsedValue(lines[0]))
    else ValueOf(lines[1..], key)
  }

  /** The parser's environment is the old one, and below it the first setting of every key. */
  lemma {:induction false} ParseIsFirstWins(lines: seq<string>, env: map<string, string>, key: string)
    ensures key in Parse(lines, env) <==> key in env || ValueOf(lines, key).Some?
    ensures key in env ==> Parse(lines, env)[key] == env[key]
    ensures key !in env && key in Parse(lines, env) ==> Parse(lines, env)[key] == ValueOf(lines, key).value
  {
    if lines != [] {
      ParseIsFirstWins(lines[1..],
        if Ignored(lines[0]) || ParsedKey(lines[0]) in env then env
        else env[ParsedKey(lines[0]) := ParsedValue(lines[0])], key);
    }
  }

  /** The first line that sets `key` has whitespace before its '=', so the updater does not see the key. */
  predicate Hidden(lines: seq<string>, key: string) {
    if lines == [] then false
    else if Sets(lines[0], key) then RawKey(lines[0]) != key
    else Hidden(lines[1..], key)
  }

  lemma {:induction false} EntriesSet(us: seq<Pair>, key: string)
    requires Good(us)
    ensures ValueOf(Entries(us), key)
            == if Has(us, key) then Some(ParseValue(FormatValue(Get(us, key)))) else None
  {
    if us != [] {
      EntryIsRead(us[0]);
      assert Sets(Entry(us[0]), key) <==> us[0].key == key;
      EntriesSet(us[1..], key);
    }
  }

  /**
   What the updated file sets a key to: the update's value, unless the key is not updated or is hidden
   from the updater, when it keeps its old one.  Whichever line comes first decides, before and after.
   */
  lemma {:induction false} UpdateSets(lines: seq<string>, us: seq<Pair>, key: string)
    requires Good(us)
    ensures ValueOf(Update(lines, us), key)
            == if Has(us, key) && !Hidden(lines, key) then Some(ParseValue(FormatValue(Get(us, key))))
               else ValueOf(lines, key)
    decreases |lines|
  {
    if lines == [] {
      EntriesSet(us, key);
    } else if !Ignored(lines[0]) && Has(us, RawKey(lines[0])) {
      var raw := RawKey(lines[0]);
      StripFixes(Spaces, raw);
      assert GoodKey(us[IndexOf(us, raw)].key);
      EntryIsRead(Pair(raw, Get(us, raw)));
      PopIs(us, raw, key);
      UpdateSets(lines[1..], Pop(us, raw), key);
    } else {
      UpdateSets(lines[1..], us, key);
    }
  }

  // ---------- the round trip ----------

  function Overridden(env: map<string, string>, us: seq<Pair>): map<string, string> {
    if us == [] then env else Overridden(env, us[..|us| - 1])[us[|us| - 1].key := us[|us| - 1].value]
  }

  lemma {:induction false} OverriddenAt(env: map<string, string>, us: seq<Pair>, key: string)
    requires Good(us)
    ensures key in Overridden(env, us) <==> key in env || Has(us, key)
    ensures Has(us, key) ==> Overridden(env, us)[key] == Get(us, key)
    ensures !Has(us, key) && key in env ==> Overridden(env, us)[key] == env[key]
  {
    if us != [] {
      var n := |us| - 1;
      OverriddenAt(env, us[..n], key);
      var i, j := IndexOf(us, key), IndexOf(us[..n], key);
      if i < n { assert us[..n][i] == us[i]; }
      if j < n { assert us[..n][j] == us[j]; }
    }
  }

  /** Every updated key is seen by the updater and its value survives, or it already has that value. */
  ghost predicate Reaches(lines: seq<string>, us: seq<Pair>) {
    forall i :: 0 <= i < |us| ==>
      if Hidden(lines, us[i].key) then ValueOf(lines, us[i].key) == Some(us[i].value) else Survives(us[i].value)
  }

  ghost predicate ReachesKey(lines: seq<string>, us: seq<Pair>, key: string) {
    Has(us, key) ==>
      if Hidden(lines, key) then ValueOf(lines, key) == Some(Get(us, key)) else Survives(Get(us, key))
  }

  lemma KeyRoundTrip(lines: seq<string>, us: seq<Pair>, key: string)
    requires Good(us)
    ensures var after, wanted := Parse(Update(lines, us), map[]), Overridden(Parse(lines, map[]), us);
            && (key in after <==> key in wanted)
            && (key in after ==> (after[key] == wanted[key] <==> ReachesKey(lines, us, key)))
            && (key !in after ==> !Has(us, key))
  {
    ParseIsFirstWins(lines, map[], key);
    ParseIsFirstWins(Update(lines, us), map[], key);
    UpdateSets(lines, us, key);
    OverriddenAt(Parse(lines, map[]), us, key);
    HiddenIsSet(lines, key);
    if Has(us, key) { ValueRoundTrip(Get(us, key)); }
  }

  lemma {:induction false} HiddenIsSet(lines: seq<string>, key: string)
    ensures Hidden(lines, key) ==> ValueOf(lines, key).Some?
  {
    if lines != [] && !Sets(lines[0], key) { HiddenIsSet(lines[1..], key); }
  }

  /**
   Parsing the updated lines from an empty environment gives the old settings overridden by exactly the
   updates iff every updated key is written without whitespace before its first '=' (or not at all) and
   its value survives quoting - a key that is hidden keeps its old value, whatever the update says.
   */
  lemma LinesRoundTrip(lines: seq<string>, us: seq<Pair>)
    requires Good(us)
    ensures Parse(Update(lines, us), map[]) == Overridden(Parse(lines, map[]), us) <==> Reaches(lines, us)
  {
    var after, wanted := Parse(Update(lines, us), map[]), Overridden(Parse(lines, map[]), us);
    forall key
      ensures key in after <==> key in wanted
      ensures key in after ==> (after[key] == wanted[key] <==> ReachesKey(lines, us, key))
      ensures key !in after ==> !Has(us, key)
    {
      KeyRoundTrip(lines, us, key);
    }
    if Reaches(lines, us) {
      forall key | key in after ensures after[key] == wanted[key] {
        if Has(us, key) { assert us[IndexOf(us, key)] == us[IndexOf(us, key)]; }
      }
    }
    if after == wanted {
      forall i | 0 <= i < |us|
        ensures if Hidden(lines, us[i].key) then ValueOf(lines, us[i].key) == Some(us[i].value)
                else Survives(us[i].value)
      {
        assert IndexOf(us, us[i].key) == i;
        assert ReachesKey(lines, us, us[i].key);
      }
    }
  }

  /** A hidden key really is lost: `KEY =old`, updated to any other value, is still read back as `old`. */
  lemma HiddenKeyKeepsOldValue(key: string, w: string, value: string)
    requires GoodKey(key)
    ensures Hidden([key + [' '] + ['='] + w], key)
    ensures ValueOf(Update([key + [' '] + ['='] + w], [Pair(key, value)]), key) == Some(ParseValue(w))
  {
    var line, us := key + [' '] + ['='] + w, [Pair(key, value)];
    LineIsRead(key + [' '], w);
    StripTail(Spaces, key, ' ');
    StripFixes(Spaces, key);
    assert Sets(line, key);
    UpdateSets([line], us, key);
  }

  // ---------- everything else stays ----------

  /** Line `i` is the first one with its raw key, and that key is to be updated. */
  predicate Rewritten(lines: seq<string>, us: seq<Pair>, i: nat)
    requires i < |lines|
  {
    && !Ignored(lines[i]) && Has(us, RawKey(lines[i]))
    && forall k :: 0 <= k < i && !Ignored(lines[k]) ==> RawKey(lines[k]) != RawKey(lines[i])
  }

  /** The updates whose key no line sets, in their own order. */
  function Unset(lines: seq<string>, us: seq<Pair>): seq<Pair>
    decreases |lines|
  {
    if lines == [] then us
    else if !Ignored(lines[0]) && Has(us, RawKey(lines[0])) then Unset(lines[1..], Pop(us, RawKey(lines[0])))
    else Unset(lines[1..], us)
  }

  /**
   Every line but the first one of each updated key keeps its text and its place; those lines become the
   new entry; and the updates without a line are appended.
   */
  lemma {:induction false} OtherLinesStay(lines: seq<string>, us: seq<Pair>, i: nat)
    requires Good(us) && i < |lines|
    ensures |Update(lines, us)| == |lines| + |Entries(Unset(lines, us))|
    ensures Update(lines, us)[|lines|..] == Entries(Unset(lines, us))
    ensures Update(lines, us)[i]
            == if Rewritten(lines, us, i) then Entry(Pair(RawKey(lines[i]), Get(us, RawKey(lines[i])))) else lines[i]
    decreases |lines|
  {
    hide Ignored, RawKey, Get, Entry, FormatValue, Rewritten, Has, Pop, Good;
    FirstIsRewritten(lines, us);
    var left := if !Ignored(lines[0]) && Has(us, RawKey(lines[0])) then Pop(us, RawKey(lines[0])) else us;
    if left != us { PopIs(us, RawKey(lines[0]), RawKey(lines[i])); }
    var rest := lines[1..];
    assert Update(lines, us)[1..] == Update(rest, left);
    if rest != [] {
      if !Ignored(lines[0]) && Has(us, RawKey(lines[0])) { PopIs(us, RawKey(lines[0]), RawKey(lines[0])); }
      OtherLinesStay(rest, left, if i == 0 then 0 else i - 1);
      assert Update(lines, us)[|lines|..] == Update(rest, left)[|rest|..];
      if i > 0 {
        assert Update(lines, us)[i] == Update(rest, left)[i - 1];
        RewrittenShift(lines, us, left, i);
      }
    }
  }

  lemma FirstIsRewritten(lines: seq<string>, us: seq<Pair>)
    requires lines != []
    ensures Rewritten(lines, us, 0) <==> !Ignored(lines[0]) && Has(us, RawKey(lines[0]))
  {
  }

  lemma RewrittenShift(lines: seq<string>, us: seq<Pair>, left: seq<Pair>, i: nat)
    requires Good(us) && 0 < i < |lines|
    requires left == if !Ignored(lines[0]) && Has(us, RawKey(lines[0])) then Pop(us, RawKey(lines[0])) else us
    ensures Rewritten(lines, us, i) <==> Rewritten(lines[1..], left, i - 1)
    ensures Rewritten(lines, us, i) ==> Get(left, RawKey(lines[i])) == Get(us, RawKey(lines[i]))
  {
    var rest := lines[1..];
    if !Ignored(lines[0]) && Has(us, RawKey(lines[0])) { PopIs(us, RawKey(lines[0]), RawKey(lines[i])); }
    assert forall k :: 0 <= k < i - 1 ==> rest[k] == lines[k + 1];
    assert forall k :: 0 < k < i ==> lines[k] == rest[k - 1];
  }

  // ---------- comments ----------

  /** The first character of the line that is no whitespace is '#'. */
  ghost predicate IsComment(line: string) {
    exists i :: 0 <= i < |line| && line[i] == '#' && forall k :: 0 <= k < i ==> IsSpace(line[k])
  }

  lemma {:induction false} TrimmedComment(line: string, i: nat)
    requires i < |line| && line[i] == '#' && forall k :: 0 <= k < i ==> IsSpace(line[k])
    ensures TrimLeft(Spaces, line) == line[i..]
  {
    if i > 0 {
      TrimmedComment(line[1..], i - 1);
      assert line[1..][i - 1..] == line[i..];
    } else {
      assert line[0..] == line;
    }
  }

  lemma CommentIsIgnored(line: string)
    requires IsComment(line)
    ensures Ignored(line)
  {
    var i :| 0 <= i < |line| && line[i] == '#' && forall k :: 0 <= k < i ==> IsSpace(line[k]);
    TrimmedComment(line, i);
    var w := line[i + 1..];
    assert line[i..] == [] + ['#'] + w;
    TrimRightStops(Spaces, [], '#', w);
  }

  lemma ParseStep(line: string, rest: seq<string>, env: map<string, string>)
    ensures Parse([line] + rest, env)
            == Parse(rest, if Ignored(line) || ParsedKey(line) in env then env
                           else env[ParsedKey(line) := ParsedValue(line)])
  {
    assert ([line] + rest)[1..] == rest;
  }

  /** A comment sets nothing, ... */
  lemma {:induction false} CommentSetsNothing(before: seq<string>, comment: string, after: seq<string>,
                                              env: map<string, string>)
    requires IsComment(comment)
    ensures Parse(before + [comment] + after, env) == Parse(before + after, env)
    decreases |before|
  {
    hide Ignored, ParsedKey, ParsedValue, Parse;
    if before == [] {
      CommentIsIgnored(comment);
      ParseStep(comment, after, env);
      assert before + [comment] + after == [comment] + after && before + after == after;
    } else {
      var line := before[0];
      ParseStep(line, before[1..] + [comment] + after, env);
      ParseStep(line, before[1..] + after, env);
      assert before + [comment] + after == [line] + (before[1..] + [comment] + after);
      assert before + after == [line] + (before[1..] + after);
      CommentSetsNothing(before[1..], comment, after,
        if Ignored(line) || ParsedKey(line) in env then env else env[ParsedKey(line) := ParsedValue(line)]);
    }
  }

  lemma UpdateOne(line: string, rest: seq<string>, us: seq<Pair>)
    ensures var hit := !Ignored(line) && Has(us, RawKey(line));
            Update([line] + rest, us)
            == [if hit then Entry(Pair(RawKey(line), Get(us, RawKey(line)))) else line]
               + Update(rest, if hit then Pop(us, RawKey(line)) else us)
  {
    assert ([line] + rest)[1..] == rest;
  }

  /** ... and stays where it is, while the other lines are updated as if it were not there. */
  lemma {:induction false} CommentStays(before: seq<string>, comment: string, after: seq<string>, us: seq<Pair>)
    requires IsComment(comment)
    ensures |Update(before + after, us)| >= |before|
    ensures Update(before + [comment] + after, us)
            == Update(before + after, us)[..|before|] + [comment] + Update(before + after, us)[|before|..]
    decreases |before|
  {
    hide Ignored, RawKey, Entry, Update, Has, Get, Pop;
    if before == [] {
      CommentIsIgnored(comment);
      UpdateOne(comment, after, us);
      assert before + [comment] + after == [comment] + after && before + after == after;
    } else {
      var line := before[0];
      var left := if !Ignored(line) && Has(us, RawKey(line)) then Pop(us, RawKey(line)) else us;
      UpdateOne(line, before[1..] + [comment] + after, us);
      UpdateOne(line, before[1..] + after, us);
      assert before + [comment] + after == [line] + (before[1..] + [comment] + after);
      assert before + after == [line] + (before[1..] + after);
      CommentStays(before[1..], comment, after, left);
      var n := |before|;
      var u, v := Update(before + after, us), Update(before[1..] + after, left);
      assert u[..n] == [u[0]] + v[..n - 1] && u[n..] == v[n - 1..];
    }
  }

  // ---------- updating twice ----------

  lemma {:induction false} EntriesAgain(us: seq<Pair>)
    requires Good(us)
    ensures Update(Entries(us), us) == Entries(us)
  {
    if us != [] {
      EntryIsRead(us[0]);
      assert Pop(us, us[0].key) == us[1..];
      EntriesAgain(us[1..]);
    }
  }

  lemma {:induction false} UpdateAgain(lines: seq<string>, us: seq<Pair>)
    requires Good(us)
    ensures Update(Update(lines, us), us) == Update(lines, us)
    decreases |lines|
  {
    if lines == [] {
      EntriesAgain(us);
    } else if !Ignored(lines[0]) && Has(us, RawKey(lines[0])) {
      var raw := RawKey(lines[0]);
      assert GoodKey(us[IndexOf(us, raw)].key);
      EntryIsRead(Pair(raw, Get(us, raw)));
      PopIs(us, raw, raw);
      UpdateAgain(lines[1..], Pop(us, raw));
    } else {
      UpdateAgain(lines[1..], us);
    }
  }

  // ---------- the file as one text ----------

  ghost predicate OneLiners(lines: seq<string>) { forall i :: 0 <= i < |lines| ==> NoBreak(lines[i]) }

  ghost predicate OneLineValues(us: seq<Pair>) { forall i :: 0 <= i < |us| ==> NoBreak(us[i].value) }

  lemma SplitOnce(s: string)
    requires FirstBreak(s) < |s|
    ensures SplitLines(s) == [s[..FirstBreak(s)]] + SplitLines(s[AfterBreak(s)..])
  {
    hide FirstBreak;
  }

  lemma FirstLineIsOneLine(s: string)
    ensures NoBreak(s[..FirstBreak(s)])
    ensures FirstBreak(s) == |s| ==> SplitLines(s) == if s == [] then [] else [s]
  {
  }

  lemma {:induction false} SplitLinesAreOneLiners(s: string)
    ensures OneLiners(SplitLines(s))
    decreases |s|
  {
    hide IsBreak, FirstBreak, SplitLines, NoBreak;
    FirstLineIsOneLine(s);
    if FirstBreak(s) < |s| {
      SplitOnce(s);
      SplitLinesAreOneLiners(s[AfterBreak(s)..]);
    } else {
      assert s[..|s|] == s;
    }
  }

  lemma FirstBreakIs(s: string, i: nat)
    requires i < |s| && IsBreak(s[i]) && NoBreak(s[..i])
    ensures FirstBreak(s) == i
  {
  }

  lemma SplitFirst(line: string, rest: string)
    requires NoBreak(line)
    ensures SplitLines(line + ['\n'] + rest) == [line] + SplitLines(rest)
  {
    var text := line + ['\n'] + rest;
    assert text[..|line|] == line && text[|line|] == '\n';
    FirstBreakIs(text, |line|);
    assert text[|line| + 1..] == rest;
  }

  lemma NoLines()
    ensures SplitLines("") == []
  {
  }

  /** The lines that one piece of text, written with a line break behind it, is read as. */
  function Parts(piece: string): seq<string> { SplitLines(piece + ['\n']) }

  function AllParts(pieces: seq<string>): seq<string> {
    if pieces == [] then [] else Parts(pieces[0]) + AllParts(pieces[1..])
  }

  lemma FirstBreakOf(piece: string, rest: string)
    ensures FirstBreak(piece + ['\n'] + rest) == FirstBreak(piece + ['\n']) == FirstBreak(piece)
  {
    var i := FirstBreak(piece);
    var short, long := piece + ['\n'], piece + ['\n'] + rest;
    assert short[..i] == piece[..i] && long[..i] == piece[..i];
    assert i < |piece| ==> short[i] == piece[i] && long[i] == piece[i];
    assert i == |piece| ==> short[i] == '\n' && long[i] == '\n';
    FirstBreakIs(short, i);
    FirstBreakIs(long, i);
  }

  /** Where the second part of a piece starts; beyond the line break behind it if there is none. */
  function NextPart(piece: string): (n: nat)
    ensures n <= |piece| + 1 && n > FirstBreak(piece)
  {
    var i := FirstBreak(piece);
    if i < |piece| && piece[i] == '\r' && (i + 1 < |piece| ==> piece[i + 1] == '\n') then i + 2 else i + 1
  }

  lemma SplitStep(piece: string, rest: string)
    ensures SplitLines(piece + ['\n'] + rest)
            == [piece[..FirstBreak(piece)]]
               + (if NextPart(piece) > |piece| then SplitLines(rest)
                  else SplitLines(piece[NextPart(piece)..] + ['\n'] + rest))
  {
    hide FirstBreak, IsBreak, SplitLines;
    var i, n, text := FirstBreak(piece), NextPart(piece), piece + ['\n'] + rest;
    FirstBreakOf(piece, rest);
    SplitOnce(text);
    assert i < |piece| ==> text[i] == piece[i];
    assert i + 1 < |piece| ==> text[i + 1] == piece[i + 1];
    assert text[|piece|] == '\n' && AfterBreak(text) == n;
    assert text[..i] == piece[..i];
    assert text[n..] == if n > |piece| then rest else piece[n..] + ['\n'] + rest;
  }

  lemma {:induction false} SplitConcat(piece: string, rest: string)
    ensures SplitLines(piece + ['\n'] + rest) == Parts(piece) + SplitLines(rest)
    decreases |piece|
  {
    hide SplitLines, FirstBreak;
    var n := NextPart(piece);
    SplitStep(piece, rest);
    SplitStep(piece, "");
    NoLines();
    assert piece + ['\n'] + "" == piece + ['\n'];
    if n <= |piece| {
      SplitConcat(piece[n..], rest);
      assert piece[n..] + ['\n'] + "" == piece[n..] + ['\n'];
      ConcatAssociative([piece[..FirstBreak(piece)]], Parts(piece[n..]), SplitLines(rest));
    }
  }

  /** Written and read again, pieces come back as their parts; no piece at all becomes one blank line. */
  lemma {:induction false} SplitJoin(pieces: seq<string>)
    ensures SplitLines(JoinLines(pieces)) == if pieces == [] then [""] else AllParts(pieces)
  {
    hide SplitLines;
    if |pieces| == 0 {
      SplitFirst("", "");
      NoLines();
      assert "" + ['\n'] + "" == ['\n'];
    } else if |pieces| == 1 {
      assert AllParts(pieces) == Parts(pieces[0]) + [];
    } else {
      SplitConcat(pieces[0], JoinLines(pieces[1..]));
      SplitJoin(pieces[1..]);
    }
  }

  lemma PartsOfOneLine(line: string)
    requires NoBreak(line)
    ensures Parts(line) == [line]
  {
    hide SplitLines;
    SplitFirst(line, "");
    NoLines();
    assert line + ['\n'] + "" == line + ['\n'];
  }

  lemma {:induction false} PartsOfOneLiners(lines: seq<string>)
    requires OneLiners(lines)
    ensures AllParts(lines) == lines
  {
    hide Parts, SplitLines, NoBreak;
    if lines != [] {
      PartsOfOneLine(lines[0]);
      PartsOfOneLiners(lines[1..]);
    }
  }

  lemma {:induction false} EntriesAreOneLiners(us: seq<Pair>)
    requires Good(us) && OneLineValues(us)
    ensures OneLiners(Entries(us))
  {
    if us != [] {
      EntryIsOneLine(us[0]);
      EntriesAreOneLiners(us[1..]);
      OneLinersCons(Entry(us[0]), Entries(us[1..]));
    }
  }

  lemma EntryIsOneLine(p: Pair)
    requires NoBreak(p.key) && NoBreak(p.value)
    ensures NoBreak(Entry(p))
  {
  }

  lemma OneLinersCons(line: string, lines: seq<string>)
    requires NoBreak(line) && OneLiners(lines)
    ensures OneLiners([line] + lines)
  {
  }

  lemma {:induction false} UpdateIsOneLiners(lines: seq<string>, us: seq<Pair>)
    requires OneLiners(lines) && Good(us) && OneLineValues(us)
    ensures OneLiners(Update(lines, us))
    decreases |lines|
  {
    if lines == [] {
      EntriesAreOneLiners(us);
    } else if !Ignored(lines[0]) && Has(us, RawKey(lines[0])) {
      var raw := RawKey(lines[0]);
      var p := us[IndexOf(us, raw)];
      PopIs(us, raw, raw);
      PopKeepsValues(us, raw);
      EntryIsOneLine(p);
      UpdateIsOneLiners(lines[1..], Pop(us, raw));
      OneLinersCons(Entry(p), Update(lines[1..], Pop(us, raw)));
    } else {
      UpdateIsOneLiners(lines[1..], us);
      OneLinersCons(lines[0], Update(lines[1..], us));
    }
  }

  lemma PopKeepsValues(us: seq<Pair>, key: string)
    requires OneLineValues(us) && Has(us, key)
    ensures OneLineValues(Pop(us, key))
  {
  }

  lemma BlankLineSetsNothing(us: seq<Pair>, env: map<string, string>)
    ensures Parse([""], env) == Parse([], env) == env && Update([""], us) == [""] + Entries(us)
  {
  }

  // ---------- the round trip on the file ----------

  lemma StripIsOneLine(t: Trim, s: string)
    requires NoBreak(s)
    ensures NoBreak(Strip(t, s))
  {
    TrimLeftIs(t, s);
    TrimRightIs(t, TrimLeft(t, s));
  }

  lemma ParsedValueIsOneLine(line: string)
    requires NoBreak(line) && !Ignored(line)
    ensures NoBreak(ParsedValue(line))
  {
    StripIsOneLine(Spaces, line);
    var raw := Stripped(line)[Find(Stripped(line), '=') + 1..];
    StripIsOneLine(Spaces, raw);
    StripIsOneLine(Only('"'), Strip(Spaces, raw));
    StripIsOneLine(Only('\''), Strip(Only('"'), Strip(Spaces, raw)));
  }

  lemma {:induction false} ValueOfIsOneLine(lines: seq<string>, key: string)
    requires OneLiners(lines) && ValueOf(lines, key).Some?
    ensures NoBreak(ValueOf(lines, key).value)
  {
    hide Ignored, ParsedValue, ParsedKey;
    if Sets(lines[0], key) { ParsedValueIsOneLine(lines[0]); } else { ValueOfIsOneLine(lines[1..], key); }
  }

  /** Nothing that spans two lines is ever read from a file. */
  lemma OnlyOneLineValuesReturn(text: string, us: seq<Pair>)
    requires Good(us) && ParseText(UpdateText(text, us)) == Overridden(ParseText(text), us)
    ensures OneLineValues(us)
  {
    hide ParseText, SplitLines, NoBreak;
    var read := SplitLines(UpdateText(text, us));
    forall i | 0 <= i < |us| ensures NoBreak(us[i].value) {
      FirstWithKey(us, i);
      OverriddenAt(ParseText(text), us, us[i].key);
      SplitLinesAreOneLiners(UpdateText(text, us));
      TextIsParsed(UpdateText(text, us), us[i].key);
      ValueOfIsOneLine(read, us[i].key);
    }
  }

  lemma TextIsParsed(text: string, key: string)
    ensures key in ParseText(text) <==> ValueOf(SplitLines(text), key).Some?
    ensures key in ParseText(text) ==> ParseText(text)[key] == ValueOf(SplitLines(text), key).value
  {
    ParseIsFirstWins(SplitLines(text), map[], key);
  }

  /**
   The round trip on the file itself: the text written is parsed as the old settings overridden by exactly
   the updates, iff no value spans several lines and every updated key reaches the parser.
   */
  lemma FileRoundTrip(text: string, us: seq<Pair>)
    requires Good(us)
    ensures ParseText(UpdateText(text, us)) == Overridden(ParseText(text), us) <==>
            OneLineValues(us) && Reaches(SplitLines(text), us)
  {
    hide Reaches, SplitLines, Overridden, Parse, Update;
    if OneLineValues(us) {
      var lines := SplitLines(text);
      SplitLinesAreOneLiners(text);
      UpdateIsOneLiners(lines, us);
      SplitJoin(Update(lines, us));
      PartsOfOneLiners(Update(lines, us));
      BlankLineSetsNothing([], map[]);
      LinesRoundTrip(lines, us);
    } else if ParseText(UpdateText(text, us)) == Overridden(ParseText(text), us) {
      OnlyOneLineValuesReturn(text, us);
    }
  }

  /** One setting alone in a file: it is read back as it was iff its value survives and is one line. */
  lemma EntryRoundTrip(p: Pair)
    requires GoodKey(p.key)
    ensures ParseText(UpdateText("", [p])) == map[p.key := p.value] <==> Survives(p.value) && NoBreak(p.value)
  {
    hide UpdateText, Survives, NoBreak;
    FileRoundTrip("", [p]);
    NoLines();
    assert Overridden(ParseText(""), [p]) == map[p.key := p.value] by {
      assert [p][..0] == [];
      assert Overridden(map[], []) == map[];
    }
    assert OneLineValues([p]) <==> NoBreak([p][0].value);
    assert Reaches([], [p]) <==> Survives([p][0].value);
  }

  // ---------- values with a line break in them ----------

  lemma {:induction false} EntryIsListed(us: seq<Pair>, p: Pair)
    requires p in us
    ensures Entry(p) in Entries(us)
  {
    if p != us[0] { EntryIsListed(us[1..], p); }
  }

  lemma PopLeaves(us: seq<Pair>, key: string, p: Pair)
    requires Good(us) && Has(us, key) && p in us
    ensures Good(Pop(us, key))
    ensures if p.key == key then p == Pair(key, Get(us, key)) else p in Pop(us, key)
  {
    PopIs(us, key, key);
    var i :| 0 <= i < |us| && us[i] == p;
    FirstWithKey(us, i);
    var n, left := IndexOf(us, key), Pop(us, key);
    if i != n { assert left[if i < n then i else i - 1] == p; }
  }

  /** Every update is written, in the place of an old line or at the end. */
  lemma {:induction false} EntryIsWritten(lines: seq<string>, us: seq<Pair>, p: Pair)
    requires Good(us) && p in us
    ensures Entry(p) in Update(lines, us)
    decreases |lines|
  {
    hide Ignored, RawKey, Entry, Good, Get, Pop;
    if lines == [] {
      EntryIsListed(us, p);
    } else if !Ignored(lines[0]) && Has(us, RawKey(lines[0])) {
      PopLeaves(us, RawKey(lines[0]), p);
      if p.key != RawKey(lines[0]) { EntryIsWritten(lines[1..], Pop(us, RawKey(lines[0])), p); }
    } else {
      EntryIsWritten(lines[1..], us, p);
    }
  }

  lemma {:induction false} PartIsRead(pieces: seq<string>, piece: string, line: string)
    requires piece in pieces && line in Parts(piece)
    ensures line in AllParts(pieces)
  {
    hide SplitLines;
    if piece != pieces[0] { PartIsRead(pieces[1..], piece, line); }
  }

  lemma {:induction false} SettingIsFound(lines: seq<string>, line: string, key: string)
    requires line in lines && Sets(line, key)
    ensures ValueOf(lines, key).Some?
  {
    if !Sets(lines[0], key) { SettingIsFound(lines[1..], line, key); }
  }

  /**
   A value that holds a line break and then `other=...` sets `other` in the file - also if nobody has
   updated `other` and the file had never set it.
   */
  lemma BreakSetsAnotherKey(text: string, us: seq<Pair>, i: nat, a: string, other: string, c: string)
    requires Good(us) && i < |us| && us[i].value == a + ['\n'] + (other + ['='] + c) && GoodKey(other)
    ensures other in ParseText(UpdateText(text, us))
    ensures !Has(us, other) && other !in ParseText(text) ==> other !in Overridden(ParseText(text), us)
  {
    var lines := SplitLines(text);
    var line := SecondLine(us[i], a, other, c);
    EntryIsWritten(lines, us, us[i]);
    PartIsRead(Update(lines, us), Entry(us[i]), line);
    SplitJoin(Update(lines, us));
    SettingIsFound(AllParts(Update(lines, us)), line, other);
    TextIsParsed(UpdateText(text, us), other);
    OverriddenAt(ParseText(text), us, other);
  }

  lemma SecondLine(p: Pair, a: string, other: string, c: string) returns (line: string)
    requires p.value == a + ['\n'] + (other + ['='] + c) && GoodKey(other)
    ensures line in Parts(Entry(p)) && Sets(line, other)
  {
    hide SplitLines, Ignored, ParsedKey;
    var quote := if NeedsQuotes(p.value) then ['"'] else [];
    var piece, rest := p.key + ['='] + quote + a, other + ['='] + (c + quote);
    assert Entry(p) + ['\n'] == piece + ['\n'] + (rest + ['\n']);
    SplitConcat(piece, rest + ['\n']);
    line := FirstLineSets(other, c + quote);
  }

  lemma FirstLineSets(key: string, w: string) returns (line: string)
    requires GoodKey(key)
    ensures line in Parts(key + ['='] + w) && Sets(line, key)
  {
    var n, text := FirstBreak(w), key + ['='] + w + ['\n'];
    line := key + ['='] + w[..n];
    assert text[..|line|] == line && IsBreak(text[|line|]);
    FirstBreakIs(text, |line|);
    LineIsRead(key, w[..n]);
    StripFixes(Spaces, key);
  }

  // ---------- updating the text twice ----------

  /** The value has no line break in it, except perhaps one '\r' at its very end and that not in quotes. */
  predicate StaysOnOneLine(value: string) {
    forall k :: 0 <= k < |value| && IsBreak(value[k]) ==>
      k == |value| - 1 && value[k] == '\r' && !NeedsQuotes(value)
  }

  /** What of the value is on the first line of its entry. */
  function Shown(value: string): string { FormatValue(value)[..FirstBreak(FormatValue(value))] }

  lemma {:induction false} PartsIsNotEmpty(piece: string)
    ensures Parts(piece) != []
  {
  }

  /** A piece is read as one line iff it has no line break, or only a '\r' at its end. */
  lemma OnePart(piece: string)
    ensures var i := FirstBreak(piece);
            |Parts(piece)| == 1 <==> i == |piece| || (i == |piece| - 1 && piece[i] == '\r')
    ensures |Parts(piece)| == 1 ==> Parts(piece) == [piece[..FirstBreak(piece)]]
  {
    hide SplitLines, FirstBreak;
    var n := NextPart(piece);
    SplitStep(piece, "");
    NoLines();
    assert piece + ['\n'] + "" == piece + ['\n'];
    if n <= |piece| {
      assert piece[n..] + ['\n'] + "" == piece[n..] + ['\n'];
      PartsIsNotEmpty(piece[n..]);
    }
  }

  lemma PartsOfEntry(p: Pair)
    requires GoodKey(p.key)
    ensures StaysOnOneLine(p.value) <==> |Parts(Entry(p))| == 1
    ensures StaysOnOneLine(p.value) ==> Parts(Entry(p)) == [p.key + ['='] + Shown(p.value)]
  {
    hide Parts, FormatValue, StaysOnOneLine;
    var line, w := Entry(p), FormatValue(p.value);
    var i := FirstBreak(w);
    assert line[..|p.key| + 1 + i] == p.key + ['='] + w[..i];
    assert i < |w| ==> line[|p.key| + 1 + i] == w[i];
    EntryBreaksAt(p);
    OnePart(line);
    WrittenOnOneLine(p.value);
  }

  lemma EntryBreaksAt(p: Pair)
    requires GoodKey(p.key)
    ensures FirstBreak(Entry(p)) == |p.key| + 1 + FirstBreak(FormatValue(p.value))
  {
    hide FormatValue;
    var line, w := Entry(p), FormatValue(p.value);
    var n := |p.key| + 1 + FirstBreak(w);
    forall k | 0 <= k < n ensures !IsBreak(line[k]) {
      if k > |p.key| { assert line[k] == w[k - |p.key| - 1]; }
    }
    if n < |line| {
      assert line[n] == w[n - |p.key| - 1];
      FirstBreakIs(line, n);
    }
  }

  lemma WrittenOnOneLine(value: string)
    ensures var w := FormatValue(value);
            StaysOnOneLine(value) <==>
            FirstBreak(w) == |w| || (FirstBreak(w) == |w| - 1 && w[FirstBreak(w)] == '\r')
  {
    var w := FormatValue(value);
    var i := FirstBreak(w);
    if NeedsQuotes(value) {
      assert forall k :: 0 <= k < |value| ==> value[k] == w[k + 1];
    }
  }

  ghost predicate StayOnOneLine(us: seq<Pair>) { forall i :: 0 <= i < |us| ==> StaysOnOneLine(us[i].value) }

  /** The line an entry is read as is rewritten to that entry. */
  lemma ShownIsRewritten(p: Pair, rest: seq<string>, us: seq<Pair>)
    requires Good(us) && GoodKey(p.key) && StaysOnOneLine(p.value) && Has(us, p.key) && Get(us, p.key) == p.value
    ensures Update(Parts(Entry(p)) + rest, us) == [Entry(p)] + Update(rest, Pop(us, p.key))
  {
    hide Parts;
    PartsOfEntry(p);
    LineIsRead(p.key, Shown(p.value));
    assert (Parts(Entry(p)) + rest)[1..] == rest;
  }

  lemma {:induction false} EntriesShown(us: seq<Pair>)
    requires Good(us) && StayOnOneLine(us)
    ensures Update(AllParts(Entries(us)), us) == Entries(us)
  {
    hide Parts, Entry, StaysOnOneLine, GoodKey;
    if us != [] {
      ShownIsRewritten(us[0], AllParts(Entries(us[1..])), us);
      assert Pop(us, us[0].key) == us[1..];
      EntriesShown(us[1..]);
    }
  }

  lemma {:induction false} UpdateShown(lines: seq<string>, us: seq<Pair>)
    requires Good(us) && StayOnOneLine(us) && OneLiners(lines)
    ensures Update(AllParts(Update(lines, us)), us) == Update(lines, us)
    decreases |lines|
  {
    hide Parts, Entry, Ignored, StaysOnOneLine, GoodKey, RawKey, NoBreak;
    if lines == [] {
      EntriesShown(us);
    } else if !Ignored(lines[0]) && Has(us, RawKey(lines[0])) {
      var raw := RawKey(lines[0]);
      PopAt(us, raw);
      assert us[IndexOf(us, raw)] == Pair(raw, Get(us, raw));
      UpdateShown(lines[1..], Pop(us, raw));
      ShownIsRewritten(Pair(raw, Get(us, raw)), AllParts(Update(lines[1..], Pop(us, raw))), us);
    } else {
      PartsOfOneLine(lines[0]);
      UpdateShown(lines[1..], us);
      assert ([lines[0]] + AllParts(Update(lines[1..], us)))[1..] == AllParts(Update(lines[1..], us));
    }
  }

  lemma {:induction false} NoFewerLines(lines: seq<string>, us: seq<Pair>)
    ensures |Update(lines, us)| >= |lines|
    decreases |lines|
  {
    hide Ignored, RawKey, Entry;
    if lines != [] {
      NoFewerLines(lines[1..],
        if !Ignored(lines[0]) && Has(us, RawKey(lines[0])) then Pop(us, RawKey(lines[0])) else us);
    }
  }

  lemma {:induction false} PartsAreMore(pieces: seq<string>, piece: string)
    ensures |AllParts(pieces)| >= |pieces|
    ensures piece in pieces && |Parts(piece)| > 1 ==> |AllParts(pieces)| > |pieces|
  {
    if pieces != [] {
      PartsIsNotEmpty(pieces[0]);
      PartsAreMore(pieces[1..], piece);
    }
  }

  /** A value read as several lines makes the file longer each time it is written. */
  lemma GrowsEachTime(text: string, us: seq<Pair>, i: nat)
    requires Good(us) && i < |us| && !StaysOnOneLine(us[i].value)
    ensures |SplitLines(UpdateText(text, us))| > |SplitLines(text)|
  {
    hide SplitLines, StaysOnOneLine, Parts;
    var lines := SplitLines(text);
    EntryIsWritten(lines, us, us[i]);
    PartsOfEntry(us[i]);
    PartsIsNotEmpty(Entry(us[i]));
    SplitJoin(Update(lines, us));
    NoFewerLines(lines, us);
    PartsAreMore(Update(lines, us), Entry(us[i]));
  }

  /**
   Updating a file twice with the same updates writes the same text as updating it once iff every value is
   read as a single line; any other value makes the file longer each time.
   */
  lemma UpdateTextIsIdempotentIff(text: string, us: seq<Pair>)
    requires Good(us)
    ensures UpdateText(UpdateText(text, us), us) == UpdateText(text, us) <==> StayOnOneLine(us)
  {
    hide SplitLines, StaysOnOneLine;
    var lines := SplitLines(text);
    if StayOnOneLine(us) {
      SplitLinesAreOneLiners(text);
      UpdateShown(lines, us);
      SplitJoin(Update(lines, us));
      if Update(lines, us) == [] {
        NoFewerLines(lines, us);
        assert us == [];
        BlankLineSetsNothing(us, map[]);
        assert Update([""], us) == [""];
      }
    } else {
      var i :| 0 <= i < |us| && !StaysOnOneLine(us[i].value);
      GrowsEachTime(UpdateText(text, us), us, i);
    }
  }
}
