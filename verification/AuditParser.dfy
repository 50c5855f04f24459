/** Text helpers of the audit tool: stripping, prefixes, and key/value lines. */
module AuditText {
  import opened Prelude

  /** The whitespace that str.strip removes. */
  predicate IsSpace(c: char) {
    || '\U{09}' <= c <= '\U{0D}' || '\U{1C}' <= c <= '\U{20}' || c == '\U{85}' || c == '\U{A0}'
    || c == '\U{1680}' || '\U{2000}' <= c <= '\U{200A}' || c == '\U{2028}' || c == '\U{2029}'
    || c == '\U{202F}' || c == '\U{205F}' || c == '\U{3000}'
  }

  function StripLeft(s: string): string {
    if s != [] && IsSpace(s[0]) then StripLeft(s[1..]) else s
  }

  function StripRight(s: string): (t: string)
    ensures t <= s
  {
    if s != [] && IsSpace(s[|s| - 1]) then StripRight(s[..|s| - 1]) else s
  }

  function Strip(s: string): string {
    StripRight(StripLeft(s))
  }

  predicate Trimmed(s: string) {
    s == [] || (!IsSpace(s[0]) && !IsSpace(s[|s| - 1]))
  }

  lemma {:induction false} StripLeftStart(s: string)
    ensures StripLeft(s) == [] || !IsSpace(StripLeft(s)[0])
    ensures s != [] && !IsSpace(s[|s| - 1]) ==> StripLeft(s) != [] && StripLeft(s)[|StripLeft(s)| - 1] == s[|s| - 1]
  {
    if s != [] && IsSpace(s[0]) { StripLeftStart(s[1..]); }
  }

  lemma {:induction false} StripRightEnd(s: string)
    ensures StripRight(s) == [] || !IsSpace(StripRight(s)[|StripRight(s)| - 1])
  {
    if s != [] && IsSpace(s[|s| - 1]) { StripRightEnd(s[..|s| - 1]); }
  }

  lemma StripTrims(s: string)
    ensures Trimmed(Strip(s))
    ensures Trimmed(s) ==> Strip(s) == s
    ensures s != [] && !IsSpace(s[|s| - 1]) ==> Strip(s) != []
  {
    StripLeftStart(s);
    StripRightEnd(StripLeft(s));
  }

  predicate StartsWith(s: string, prefix: string) {
    |prefix| <= |s| && s[..|prefix|] == prefix
  }

  /** Position of the first occurrence of c, or the length. */
  function IndexOf(s: string, c: char): (i: nat)
    ensures i <= |s| && (i < |s| ==> s[i] == c) && c !in s[..i]
  {
    if s == [] then 0
    else if s[0] == c then 0
    else
      var i := IndexOf(s[1..], c) + 1;
      assert s[..i] == [s[0]] + s[1..][..i - 1];
      i
  }

  lemma {:induction false} IndexOfUnique(s: string, c: char, i: nat)
    requires i < |s| && s[i] == c && c !in s[..i]
    ensures IndexOf(s, c) == i
  {
    if i > 0 {
      assert s[..i] == [s[0]] + s[1..][..i - 1];
      IndexOfUnique(s[1..], c, i - 1);
    }
  }

  /** Matching quotes at both ends are dropped; a lone quote character counts as both ends. */
  function Unquote(v: string): string {
    if v != [] && v[0] == v[|v| - 1] && (v[0] == '"' || v[0] == '\'')
    then if |v| == 1 then [] else v[1..|v| - 1]
    else v
  }

  /** Splits at the first colon; None where the tool would raise on a line without one. */
  function SplitKv(line: string): Option<(string, string)> {
    var i := IndexOf(line, ':');
    if i == |line| then None
    else Some((Strip(line[..i]), Unquote(Strip(line[i + 1..]))))
  }

  /** `key: "value"`. */
  function KvLine(key: string, value: string): string {
    key + ": \"" + value + "\""
  }

  lemma KvLineParts(key: string, value: string)
    requires ':' !in key
    ensures var line := KvLine(key, value);
            IndexOf(line, ':') == |key| < |line| && line[..|key|] == key && line[|key| + 1..] == " " + ("\"" + value + "\"")
  {
    var line := KvLine(key, value);
    assert line == key + (":" + (" " + ("\"" + value + "\"")));
    assert line[..|key|] == key && line[|key|] == ':';
    IndexOfUnique(line, ':', |key|);
  }

  lemma UnquoteQuoted(value: string)
    ensures Unquote(Strip(" " + ("\"" + value + "\""))) == value
  {
    var quoted := "\"" + value + "\"";
    assert (" " + quoted)[1..] == quoted;
    assert StripLeft(" " + quoted) == StripLeft(quoted) == quoted;
    assert quoted[1..|quoted| - 1] == value;
  }

  /** Any value survives quoting, whatever quotes and colons it contains. */
  lemma SplitQuoted(key: string, value: string)
    requires Trimmed(key) && ':' !in key
    ensures SplitKv(KvLine(key, value)) == Some((key, value))
  {
    KvLineParts(key, value);
    UnquoteQuoted(value);
    StripTrims(key);
  }

  /** A prefix starts with a word only if the whole does, and conversely if it is long enough. */
  lemma PrefixStarts(part: string, whole: string, word: string)
    requires part <= whole
    ensures StartsWith(part, word) ==> StartsWith(whole, word)
    ensures |word| <= |part| && StartsWith(whole, word) ==> StartsWith(part, word)
  {
    if |word| <= |part| { assert whole[..|word|] == part[..|word|]; }
  }

  lemma StartsChars(s: string, word: string, i: nat)
    requires i < |word|
    ensures StartsWith(s, word) ==> i < |s| && s[i] == word[i]
  {
    if StartsWith(s, word) { assert s[..|word|][i] == s[i]; }
  }
}

/** The line-oriented parser of the exception file. */
module AuditParser {
  import opened Prelude
  import opened AuditText

  /** A dict in insertion order. */
  type Record = seq<(string, string)>

  function Keys(r: Record): (ks: seq<string>)
    ensures |ks| == |r| && forall i :: 0 <= i < |r| ==> ks[i] == r[i].0
  {
    Map((p: (string, string)) => p.0, r)
  }

  /** d[key] = value: an existing key keeps its place. */
  function Put(r: Record, key: string, value: string): Record {
    if r == [] then [(key, value)]
    else if r[0].0 == key then [(key, value)] + r[1..]
    else [r[0]] + Put(r[1..], key, value)
  }

  function Get(r: Record, key: string): Option<string> {
    if r == [] then None
    else if r[0].0 == key then Some(r[0].1)
    else Get(r[1..], key)
  }

  datatype State = State(finished: seq<Record>, current: Option<Record>)

  predicate Skipped(line: string) {
    line == [] || StartsWith(line, "#") || StartsWith(line, "version:") || StartsWith(line, "exceptions:")
  }

  predicate OpensItem(line: string) {
    StartsWith(line, "- ")
  }

  /** An empty dict is dropped like a missing one. */
  function Flush(st: State): seq<Record> {
    if st.current.Some? && st.current.value != [] then st.finished + [st.current.value] else st.finished
  }

  /** One raw line; None when the tool raises. */
  function Step(st: State, raw: string): Option<State> {
    var line := Strip(raw);
    if Skipped(line) then Some(st)
    else if OpensItem(line) then
      var rest := Strip(line[2..]);
      if rest == [] then Some(State(Flush(st), Some([])))
      else
        match SplitKv(rest)
        case None => None
        case Some(kv) => Some(State(Flush(st), Some([kv])))
    else if st.current.Some? && ':' in line then
      match SplitKv(line)
      case None => None
      case Some(kv) => Some(st.(current := Some(Put(st.current.value, kv.0, kv.1))))
    else Some(st)
  }

  function Run(st: State, lines: seq<string>): Option<State>
    decreases |lines|
  {
    if lines == [] then Some(st)
    else
      match Step(st, lines[0])
      case None => None
      case Some(st') => Run(st', lines[1..])
  }

  function Parse(lines: seq<string>): Option<seq<Record>> {
    match Run(State([], None), lines)
    case None => None
    case Some(st) => Some(Flush(st))
  }

  /** The parser as a loop over the lines. */
  method ParseExceptions(lines: seq<string>) returns (exceptions: Option<seq<Record>>)
    ensures exceptions == Parse(lines)
  {
    var finished: seq<Record>, current: Option<Record> := [], None;
    for i := 0 to |lines|
      invariant Run(State([], None), lines) == Run(State(finished, current), lines[i..])
    {
      assert lines[i..][0] == lines[i] && lines[i..][1..] == lines[i + 1..];
      var line := Strip(lines[i]);
      if Skipped(line) {
        continue;
      }
      if OpensItem(line) {
        if current.Some? && current.value != [] {
          finished := finished + [current.value];
        }
        current := Some([]);
        line := Strip(line[2..]);
        if line != [] {
          var kv := SplitKv(line);
          if kv == None {
            return None;
          }
          current := Some(Put([], kv.value.0, kv.value.1));
        }
        continue;
      }
      if current.Some? && ':' in line {
        var kv := SplitKv(line);
        if kv == None {
          return None;
        }
        current := Some(Put(current.value, kv.value.0, kv.value.1));
      }
    }
    if current.Some? && current.value != [] {
      finished := finished + [current.value];
    }
    return Some(finished);
  }

  // ---------- parsing pieces ----------

  lemma {:induction false} RunAppend(st: State, a: seq<string>, b: seq<string>)
    ensures Run(st, a + b) == match Run(st, a) case None => None case Some(st') => Run(st', b)
    decreases |a|
  {
    if a == [] {
      assert a + b == b;
    } else {
      assert (a + b)[1..] == a[1..] + b;
      if Step(st, a[0]).Some? { RunAppend(Step(st, a[0]).value, a[1..], b); }
    }
  }

  function Prepend(done: seq<Record>, st: State): State {
    st.(finished := done + st.finished)
  }

  /** Finished records do not influence what follows. */
  lemma {:induction false} RunPrepend(done: seq<Record>, st: State, lines: seq<string>)
    ensures Run(Prepend(done, st), lines) ==
            match Run(st, lines) case None => None case Some(st') => Some(Prepend(done, st'))
    decreases |lines|
  {
    if lines != [] {
      assert Flush(Prepend(done, st)) == done + Flush(st);
      if Step(st, lines[0]).Some? { RunPrepend(done, Step(st, lines[0]).value, lines[1..]); }
    }
  }

  /** The first line that is not skipped, if any, opens an item. */
  predicate StartsWithItem(lines: seq<string>) {
    lines == []
    || (if Skipped(Strip(lines[0])) then StartsWithItem(lines[1..]) else OpensItem(Strip(lines[0])))
  }

  lemma {:induction false} RunFresh(st: State, lines: seq<string>)
    requires StartsWithItem(lines)
    ensures match Run(State([], None), lines)
            case None => Run(st, lines) == None
            case Some(end) => Run(st, lines).Some? && Flush(Run(st, lines).value) == Flush(st) + Flush(end)
    decreases |lines|
  {
    if lines == [] {
      assert Flush(State([], None)) == [];
    } else if Skipped(Strip(lines[0])) {
      RunFresh(st, lines[1..]);
    } else {
      var begun := Step(State([], None), lines[0]);
      if begun.Some? {
        assert Flush(st) + [] == Flush(st);
        assert Flush(State([], None)) == [];
        assert Step(st, lines[0]) == Some(Prepend(Flush(st), begun.value));
        RunPrepend(Flush(st), begun.value, lines[1..]);
        var end := Run(begun.value, lines[1..]);
        if end.Some? { assert Flush(Prepend(Flush(st), end.value)) == Flush(st) + Flush(end.value); }
      }
    }
  }

  /** Concatenating files concatenates their records when the second begins with an item: none
      is lost, merged or reordered, and a bad item raises in either reading. */
  lemma ParseConcatenation(a: seq<string>, b: seq<string>)
    requires StartsWithItem(b)
    ensures Parse(a + b) ==
            if Parse(a).Some? && Parse(b).Some? then Some(Parse(a).value + Parse(b).value) else None
  {
    RunAppend(State([], None), a, b);
    var left := Run(State([], None), a);
    if left.Some? { RunFresh(left.value, b); }
  }

  // ---------- what a parse can produce ----------

  predicate GoodKey(k: string) { Trimmed(k) && ':' !in k }

  /** Every parsed record: non-empty, distinct trimmed colon-free keys, and no later key that
      would have read as a comment or as a new item. */
  ghost predicate Clean(r: Record) {
    && r != [] && Distinct(Keys(r))
    && (forall p :: p in r ==> GoodKey(p.0))
    && (forall p :: p in r[1..] ==> !StartsWith(p.0, "#") && !StartsWith(p.0, "- "))
  }

  lemma SplitKvKey(line: string)
    requires SplitKv(line).Some?
    ensures GoodKey(SplitKv(line).value.0)
    ensures line != [] && !IsSpace(line[0]) ==> SplitKv(line).value.0 <= line
  {
    var prefix := line[..IndexOf(line, ':')];
    StripTrims(prefix);
    StripIsInside(prefix);
    if line != [] && !IsSpace(line[0]) && prefix != [] {
      assert prefix[0] == line[0];
    }
  }

  lemma {:induction false} StripLeftInside(s: string)
    ensures forall c :: c in StripLeft(s) ==> c in s
  {
    if s != [] && IsSpace(s[0]) { StripLeftInside(s[1..]); }
  }

  lemma StripIsInside(s: string)
    ensures forall c :: c in Strip(s) ==> c in s
    ensures s != [] && !IsSpace(s[0]) ==> Strip(s) <= s
  {
    StripLeftInside(s);
    var t := StripLeft(s);
    forall c | c in Strip(s) ensures c in s {
      var i :| 0 <= i < |Strip(s)| && Strip(s)[i] == c;
      assert t[i] == c;
    }
  }

  lemma {:induction false} PutMembers(r: Record, key: string, value: string)
    ensures forall p :: p in Put(r, key, value) ==> p in r || p == (key, value)
    ensures r != [] ==> forall p :: p in Put(r, key, value)[1..] ==> p in r[1..] || p == (key, value)
  {
    if r != [] {
      if r[0].0 == key {
        assert Put(r, key, value)[1..] == r[1..];
      } else {
        PutMembers(r[1..], key, value);
        assert Put(r, key, value)[1..] == Put(r[1..], key, value);
      }
    }
  }

  lemma KeysCons(p: (string, string), r: Record)
    ensures Keys([p] + r) == [p.0] + Keys(r)
  {
  }

  lemma KeysTail(r: Record)
    requires r != []
    ensures Keys(r) == [r[0].0] + Keys(r[1..])
  {
  }

  lemma ConsSnoc<T>(xs: seq<T>, y: T)
    requires xs != []
    ensures [xs[0]] + (xs[1..] + [y]) == xs + [y]
  {
  }

  lemma {:induction false} PutNew(r: Record, key: string, value: string)
    requires key !in Keys(r)
    ensures Put(r, key, value) == r + [(key, value)]
  {
    if r != [] {
      KeysTail(r);
      assert Keys(r)[0] == r[0].0;
      PutNew(r[1..], key, value);
      ConsSnoc(r, (key, value));
    }
  }

  lemma {:induction false} PutOld(r: Record, key: string, value: string)
    requires key in Keys(r)
    ensures Keys(Put(r, key, value)) == Keys(r)
  {
    assert r == [r[0]] + r[1..];
    KeysCons(r[0], r[1..]);
    if r[0].0 == key {
      KeysCons((key, value), r[1..]);
    } else {
      PutOld(r[1..], key, value);
      KeysCons(r[0], Put(r[1..], key, value));
    }
  }

  lemma PutDistinct(r: Record, key: string, value: string)
    requires Distinct(Keys(r))
    ensures Distinct(Keys(Put(r, key, value))) && Put(r, key, value) != []
  {
    if key in Keys(r) {
      PutOld(r, key, value);
    } else {
      PutNew(r, key, value);
      assert Keys(r + [(key, value)]) == Keys(r) + [key];
    }
  }

  ghost predicate CleanState(st: State) {
    (forall r :: r in st.finished ==> Clean(r)) && (st.current.Some? ==> Clean(st.current.value))
  }

  lemma StepClean(st: State, raw: string)
    requires CleanState(st) && Step(st, raw).Some?
    ensures CleanState(Step(st, raw).value)
  {
    var line := Strip(raw);
    StripTrims(raw);
    if Skipped(line) {
    } else if OpensItem(line) {
      StripTrims(line[2..]);
      SplitKvKey(Strip(line[2..]));
    } else if st.current.Some? && ':' in line {
      SplitKvKey(line);
      var kv := SplitKv(line).value;
      PutMembers(st.current.value, kv.0, kv.1);
      PutDistinct(st.current.value, kv.0, kv.1);
      PrefixStarts(kv.0, line, "#");
      PrefixStarts(kv.0, line, "- ");
    }
  }

  lemma {:induction false} RunClean(st: State, lines: seq<string>)
    requires CleanState(st) && Run(st, lines).Some?
    ensures CleanState(Run(st, lines).value)
    decreases |lines|
  {
    if lines != [] {
      StepClean(st, lines[0]);
      RunClean(Step(st, lines[0]).value, lines[1..]);
    }
  }

  /** Every record a parse returns is clean. */
  lemma ParseIsClean(lines: seq<string>)
    requires Parse(lines).Some?
    ensures forall r :: r in Parse(lines).value ==> Clean(r)
  {
    RunClean(State([], None), lines);
  }

  // ---------- printing and parsing back ----------

  function PrintTail(r: Record): seq<string> {
    if r == [] then [] else [KvLine(r[0].0, r[0].1)] + PrintTail(r[1..])
  }

  function PrintRecord(r: Record): seq<string> {
    if r == [] then [] else ["- " + KvLine(r[0].0, r[0].1)] + PrintTail(r[1..])
  }

  function Print(records: seq<Record>): seq<string> {
    if records == [] then [] else PrintRecord(records[0]) + Print(records[1..])
  }

  predicate Header(k: string) { k == "version" || k == "exceptions" }

  function DropHeaders(r: Record): Record {
    if r == [] then []
    else if Header(r[0].0) then DropHeaders(r[1..])
    else [r[0]] + DropHeaders(r[1..])
  }

  /** The entries of a record that survive printing: a later entry whose key is one of the two
      header words is skipped as a header. */
  function WithoutHeaders(r: Record): Record {
    if r == [] then [] else [r[0]] + DropHeaders(r[1..])
  }

  function AllWithoutHeaders(records: seq<Record>): (shown: seq<Record>)
    ensures |shown| == |records| && forall i :: 0 <= i < |records| ==> shown[i] == WithoutHeaders(records[i])
  {
    Map((r: Record) => WithoutHeaders(r), records)
  }

  /** Records that come back unchanged. */
  ghost predicate Printable(r: Record) {
    Clean(r) && forall p :: p in r[1..] ==> !Header(p.0)
  }

  lemma KvLineTrimmed(key: string, value: string)
    requires GoodKey(key)
    ensures KvLine(key, value) != [] && Trimmed(KvLine(key, value)) && Strip(KvLine(key, value)) == KvLine(key, value)
    ensures Strip("- " + KvLine(key, value)) == "- " + KvLine(key, value)
  {
    var line := KvLine(key, value);
    assert line[|line| - 1] == '"';
    assert line[0] == if key == [] then ':' else key[0];
    StripTrims(line);
    StripTrims("- " + line);
  }

  lemma PrefixOfKvLine(key: string, value: string, word: string)
    requires GoodKey(key) && ':' !in word
    ensures StartsWith(KvLine(key, value), word + ":") <==> key == word
  {
    var line := KvLine(key, value);
    assert line[..|key|] == key && line[|key|] == ':';
    IndexOfUnique(line, ':', |key|);
    if StartsWith(line, word + ":") {
      assert (word + ":")[..|word|] == word && (word + ":")[|word|] == ':';
      assert line[|word|] == ':' && line[..|word|] == word;
      IndexOfUnique(line, ':', |word|);
    }
    if key == word { assert line[..|word| + 1] == word + ":"; }
  }

  lemma PlainKvLine(key: string, value: string)
    requires GoodKey(key) && !StartsWith(key, "#") && !StartsWith(key, "- ")
    ensures Skipped(KvLine(key, value)) <==> Header(key)
    ensures !OpensItem(KvLine(key, value))
  {
    var line := KvLine(key, value);
    KvLineTrimmed(key, value);
    PrefixOfKvLine(key, value, "version");
    PrefixOfKvLine(key, value, "exceptions");
    KvLineParts(key, value);
    PrefixStarts(key, line, "#");
    PrefixStarts(key, line, "- ");
    StartsChars(line, "#", 0);
    StartsChars(line, "- ", 0);
    StartsChars(line, "- ", 1);
  }

  /** A later entry is added to the current record, or skipped as a header. */
  lemma StepEntry(st: State, key: string, value: string)
    requires GoodKey(key) && !StartsWith(key, "#") && !StartsWith(key, "- ") && st.current.Some?
    ensures Step(st, KvLine(key, value)) ==
            Some(if Header(key) then st else st.(current := Some(Put(st.current.value, key, value))))
  {
    KvLineTrimmed(key, value);
    PlainKvLine(key, value);
    SplitQuoted(key, value);
    assert KvLine(key, value)[|key|] == ':';
  }

  lemma ItemLine(key: string, value: string)
    requires GoodKey(key)
    ensures var line := "- " + KvLine(key, value);
            Strip(line) == line && OpensItem(line) && !Skipped(line) && Strip(line[2..]) == KvLine(key, value) != []
  {
    var line := "- " + KvLine(key, value);
    KvLineTrimmed(key, value);
    assert line[..2] == "- " && line[2..] == KvLine(key, value);
    assert line[0] == '-';
    StartsChars(line, "#", 0);
    StartsChars(line, "version:", 0);
    StartsChars(line, "exceptions:", 0);
  }

  lemma StepItem(st: State, key: string, value: string)
    requires GoodKey(key)
    ensures Step(st, "- " + KvLine(key, value)) == Some(State(Flush(st), Some([(key, value)])))
  {
    ItemLine(key, value);
    SplitQuoted(key, value);
  }

  ghost predicate CleanTail(r: Record) {
    && Distinct(Keys(r))
    && forall p :: p in r ==> GoodKey(p.0) && !StartsWith(p.0, "#") && !StartsWith(p.0, "- ")
  }

  ghost predicate NewKeys(r: Record, cur: Record) {
    forall k :: k in Keys(r) ==> k !in Keys(cur)
  }

  lemma NewKeysStep(r: Record, cur: Record)
    requires CleanTail(r) && r != [] && NewKeys(r, cur)
    ensures r[0].0 !in Keys(cur) && NewKeys(r[1..], cur) && NewKeys(r[1..], cur + [r[0]])
  {
    TailClean(r);
    assert Keys(r) == [r[0].0] + Keys(r[1..]);
    assert Keys(r)[0] in Keys(r);
    assert Keys(cur + [r[0]]) == Keys(cur) + [r[0].0];
  }

  /** The state after a printed later entry. */
  function After(st: State, p: (string, string)): State
    requires st.current.Some?
  {
    if Header(p.0) then st else st.(current := Some(st.current.value + [p]))
  }

  lemma StepAfter(st: State, r: Record)
    requires CleanTail(r) && r != [] && st.current.Some? && NewKeys(r, st.current.value)
    ensures Step(st, KvLine(r[0].0, r[0].1)) == Some(After(st, r[0]))
  {
    assert r[0] in r;
    NewKeysStep(r, st.current.value);
    StepEntry(st, r[0].0, r[0].1);
    PutNew(st.current.value, r[0].0, r[0].1);
  }

  lemma AfterDrop(st: State, r: Record)
    requires r != [] && st.current.Some?
    ensures After(st, r[0]).current.value + DropHeaders(r[1..]) == st.current.value + DropHeaders(r)
  {
  }

  lemma {:induction false} RunTail(st: State, r: Record)
    requires CleanTail(r) && st.current.Some? && NewKeys(r, st.current.value)
    ensures Run(st, PrintTail(r)) == Some(st.(current := Some(st.current.value + DropHeaders(r))))
    decreases |r|
  {
    if r == [] {
      assert st.current.value + [] == st.current.value;
    } else {
      NewKeysStep(r, st.current.value);
      TailClean(r);
      StepAfter(st, r);
      PrintTailStep(st, After(st, r[0]), r);
      RunTail(After(st, r[0]), r[1..]);
      AfterDrop(st, r);
    }
  }

  lemma PrintTailStep(st: State, next: State, r: Record)
    requires r != [] && Step(st, KvLine(r[0].0, r[0].1)) == Some(next)
    ensures Run(st, PrintTail(r)) == Run(next, PrintTail(r[1..]))
  {
    assert PrintTail(r)[0] == KvLine(r[0].0, r[0].1);
    assert PrintTail(r)[1..] == PrintTail(r[1..]);
  }

  lemma TailClean(r: Record)
    requires CleanTail(r) && r != []
    ensures CleanTail(r[1..]) && r[0].0 !in Keys(r[1..])
  {
    assert Keys(r) == [r[0].0] + Keys(r[1..]);
    forall i, j | 0 <= i < j < |r| - 1 ensures Keys(r[1..])[i] != Keys(r[1..])[j] {
      assert Keys(r)[i + 1] != Keys(r)[j + 1];
    }
    forall i | 0 <= i < |r| - 1 ensures Keys(r[1..])[i] != r[0].0 {
      assert Keys(r)[i + 1] != Keys(r)[0];
    }
  }

  lemma RunRecord(st: State, r: Record)
    requires Clean(r)
    ensures Run(st, PrintRecord(r)) == Some(State(Flush(st), Some(WithoutHeaders(r))))
  {
    var (k, v) := r[0];
    assert r[0] in r;
    StepItem(st, k, v);
    var next := State(Flush(st), Some([(k, v)]));
    assert PrintRecord(r)[0] == "- " + KvLine(k, v);
    assert PrintRecord(r)[1..] == PrintTail(r[1..]);
    CleanGivesTail(r);
    RunTail(next, r[1..]);
    assert WithoutHeaders(r) == [(k, v)] + DropHeaders(r[1..]);
  }

  lemma CleanGivesTail(r: Record)
    requires Clean(r)
    ensures CleanTail(r[1..]) && NewKeys(r[1..], [r[0]])
  {
    forall i, j | 0 <= i < j < |r| - 1 ensures Keys(r[1..])[i] != Keys(r[1..])[j] {
      assert Keys(r)[i + 1] != Keys(r)[j + 1];
    }
    forall x | x in Keys(r[1..]) ensures x !in Keys([r[0]]) {
      var i :| 0 <= i < |r| - 1 && Keys(r[1..])[i] == x;
      assert Keys(r)[i + 1] != Keys(r)[0];
    }
    assert forall p :: p in r[1..] ==> p in r;
  }

  /** Printing clean records and parsing them back drops exactly the later header entries. */
  lemma {:induction false} PrintParse(st: State, records: seq<Record>) returns (end: State)
    requires AllClean(records)
    ensures Run(st, Print(records)) == Some(end) && Flush(end) == Flush(st) + AllWithoutHeaders(records)
    decreases |records|
  {
    if records == [] {
      assert Flush(st) + [] == Flush(st);
      end := st;
    } else {
      var next := PrintParseStep(st, records);
      end := PrintParse(next, records[1..]);
      AllWithoutHeadersStep(records);
      Regroup(Flush(st), WithoutHeaders(records[0]), AllWithoutHeaders(records[1..]));
    }
  }

  lemma Regroup(done: seq<Record>, r: Record, rest: seq<Record>)
    ensures done + [r] + rest == done + ([r] + rest)
  {
  }

  lemma PrintParseStep(st: State, records: seq<Record>) returns (next: State)
    requires records != [] && AllClean(records)
    ensures Run(st, Print(records)) == Run(next, Print(records[1..])) && AllClean(records[1..])
    ensures Flush(next) == Flush(st) + [WithoutHeaders(records[0])]
  {
    assert records[0] in records;
    next := State(Flush(st), Some(WithoutHeaders(records[0])));
    RunRecord(st, records[0]);
    RunAppend(st, PrintRecord(records[0]), Print(records[1..]));
  }

  lemma AllWithoutHeadersStep(records: seq<Record>)
    requires records != []
    ensures AllWithoutHeaders(records) == [WithoutHeaders(records[0])] + AllWithoutHeaders(records[1..])
  {
  }

  ghost predicate AllClean(records: seq<Record>) {
    forall r :: r in records ==> Clean(r)
  }

  lemma CleanRoundTrip(records: seq<Record>)
    requires AllClean(records)
    ensures Parse(Print(records)) == Some(AllWithoutHeaders(records))
  {
    var end := PrintParse(State([], None), records);
    assert Flush(State([], None)) == [];
    assert [] + AllWithoutHeaders(records) == AllWithoutHeaders(records);
  }

  /** A list of records survives printing to a list of lines and parsing exactly when every record is
      printable. */
  lemma RoundTripExact(records: seq<Record>)
    ensures Parse(Print(records)) == Some(records) <==> forall r :: r in records ==> Printable(r)
  {
    if Parse(Print(records)) == Some(records) {
      ParseIsClean(Print(records));
      assert AllClean(records);
    }
    if AllClean(records) {
      CleanRoundTrip(records);
      var shown := AllWithoutHeaders(records);
      forall i | 0 <= i < |records| ensures shown[i] == records[i] <==> Printable(records[i]) {
        assert records[i] in records;
        HeadersMatter(records[i]);
      }
      if shown == records {
        forall r | r in records ensures Printable(r) {
          var i :| 0 <= i < |records| && records[i] == r;
          assert shown[i] == records[i];
        }
      }
      if forall r :: r in records ==> Printable(r) {
        forall i | 0 <= i < |records| ensures shown[i] == records[i] { assert records[i] in records; }
      }
    }
  }

  lemma HeadersMatter(r: Record)
    requires Clean(r)
    ensures WithoutHeaders(r) == r <==> Printable(r)
  {
    assert r == [r[0]] + r[1..];
    assert WithoutHeaders(r)[1..] == DropHeaders(r[1..]);
    DropNothing(r[1..]);
  }

  lemma {:induction false} DropNothing(r: Record)
    ensures |DropHeaders(r)| <= |r|
    ensures DropHeaders(r) == r <==> forall p :: p in r ==> !Header(p.0)
  {
    if r != [] {
      DropNothing(r[1..]);
      assert r == [r[0]] + r[1..];
      if Header(r[0].0) { assert r[0] in r; }
      if DropHeaders(r) == r { assert DropHeaders(r)[1..] == r[1..]; }
    }
  }

  // ---------- the file as text ----------

  predicate IsBreak(c: char) { c == '\n' || c == '\r' }

  predicate OneLine(s: string) {
    forall c :: c in s ==> !IsBreak(c)
  }

  /** Position of the first line break, or the length. */
  function LineEnd(s: string): (i: nat)
    ensures i <= |s| && (i < |s| ==> IsBreak(s[i])) && OneLine(s[..i])
  {
    if s == [] || IsBreak(s[0]) then 0
    else
      var i := LineEnd(s[1..]) + 1;
      assert s[..i] == [s[0]] + s[1..][..i - 1];
      i
  }

  /** The lines of a file opened as text: LF, CR and CR LF each end one. */
  function Lines(text: string): seq<string>
    decreases |text|
  {
    if text == [] then []
    else
      var i := LineEnd(text);
      if i == |text| then [text]
      else [text[..i]] + Lines(text[if StartsWith(text[i..], "\r\n") then i + 2 else i + 1..])
  }

  function ParseText(text: string): Option<seq<Record>> {
    Parse(Lines(text))
  }

  function Unlines(lines: seq<string>): string {
    if lines == [] then [] else lines[0] + "\n" + Unlines(lines[1..])
  }

  function PrintText(records: seq<Record>): string {
    Unlines(Print(records))
  }

  /** No key and no value holds a line break. */
  ghost predicate SingleLine(r: Record) {
    forall p :: p in r ==> OneLine(p.0) && OneLine(p.1)
  }

  lemma {:induction false} LinesAreSingle(text: string)
    ensures forall line :: line in Lines(text) ==> OneLine(line)
    decreases |text|
  {
    if text != [] {
      var i := LineEnd(text);
      if i < |text| {
        LinesAreSingle(text[if StartsWith(text[i..], "\r\n") then i + 2 else i + 1..]);
      } else {
        assert text[..i] == text;
      }
    }
  }

  lemma {:induction false} LineEndAt(s: string, i: nat)
    requires i < |s| && IsBreak(s[i]) && OneLine(s[..i])
    ensures LineEnd(s) == i
  {
    if i > 0 {
      assert s[..i] == [s[0]] + s[1..][..i - 1];
      assert s[..i][0] == s[0];
      LineEndAt(s[1..], i - 1);
    }
  }

  lemma LinesFirst(line: string, rest: string)
    requires OneLine(line)
    ensures Lines(line + "\n" + rest) == [line] + Lines(rest)
  {
    var text := line + "\n" + rest;
    assert text[..|line|] == line && text[|line|] == '\n' && text[|line| + 1..] == rest;
    LineEndAt(text, |line|);
    StartsChars(text[|line|..], "\r\n", 0);
  }

  lemma {:induction false} LinesUnlines(lines: seq<string>)
    requires forall line :: line in lines ==> OneLine(line)
    ensures Lines(Unlines(lines)) == lines
  {
    if lines != [] {
      LinesFirst(lines[0], Unlines(lines[1..]));
      LinesUnlines(lines[1..]);
    }
  }

  lemma {:induction false} TailIsSingle(r: Record)
    requires SingleLine(r)
    ensures forall line :: line in PrintTail(r) ==> OneLine(line)
  {
    if r != [] {
      assert r[0] in r;
      TailIsSingle(r[1..]);
    }
  }

  lemma {:induction false} PrintIsSingle(records: seq<Record>)
    requires forall r :: r in records ==> SingleLine(r)
    ensures forall line :: line in Print(records) ==> OneLine(line)
  {
    if records != [] {
      var r := records[0];
      assert r in records;
      PrintIsSingle(records[1..]);
      if r != [] {
        assert r[0] in r;
        TailIsSingle(r[1..]);
      }
    }
  }

  ghost predicate SingleState(st: State) {
    (forall r :: r in st.finished ==> SingleLine(r)) && (st.current.Some? ==> SingleLine(st.current.value))
  }

  lemma SplitKvSingle(line: string)
    requires OneLine(line) && SplitKv(line).Some?
    ensures OneLine(SplitKv(line).value.0) && OneLine(SplitKv(line).value.1)
  {
    var i := IndexOf(line, ':');
    StripIsInside(line[..i]);
    StripIsInside(line[i + 1..]);
    UnquoteIsInside(Strip(line[i + 1..]));
  }

  lemma UnquoteIsInside(v: string)
    ensures forall c :: c in Unquote(v) ==> c in v
  {
  }

  lemma StepSingle(st: State, raw: string)
    requires SingleState(st) && OneLine(raw) && Step(st, raw).Some?
    ensures SingleState(Step(st, raw).value)
  {
    var line := Strip(raw);
    StripIsInside(raw);
    if Skipped(line) {
    } else if OpensItem(line) {
      StripIsInside(line[2..]);
      if Strip(line[2..]) != [] { SplitKvSingle(Strip(line[2..])); }
    } else if st.current.Some? && ':' in line {
      SplitKvSingle(line);
      var kv := SplitKv(line).value;
      PutMembers(st.current.value, kv.0, kv.1);
    }
  }

  lemma {:induction false} RunSingle(st: State, lines: seq<string>)
    requires SingleState(st) && Run(st, lines).Some? && forall line :: line in lines ==> OneLine(line)
    ensures SingleState(Run(st, lines).value)
    decreases |lines|
  {
    if lines != [] {
      StepSingle(st, lines[0]);
      RunSingle(Step(st, lines[0]).value, lines[1..]);
    }
  }

  /** No file yields a key or a value with a line break. */
  lemma ParseTextIsSingle(text: string)
    requires ParseText(text).Some?
    ensures forall r :: r in ParseText(text).value ==> Clean(r) && SingleLine(r)
  {
    LinesAreSingle(text);
    RunSingle(State([], None), Lines(text));
    ParseIsClean(Lines(text));
  }

  /** Written to a file and read back, records survive exactly when every one is printable and holds
      no line break. */
  lemma TextRoundTripExact(records: seq<Record>)
    ensures ParseText(PrintText(records)) == Some(records) <==> forall r :: r in records ==> Printable(r) && SingleLine(r)
  {
    if ParseText(PrintText(records)) == Some(records) { ParseTextIsSingle(PrintText(records)); }
    if forall r :: r in records ==> SingleLine(r) {
      PrintIsSingle(records);
      LinesUnlines(Print(records));
      RoundTripExact(records);
    }
  }
}
