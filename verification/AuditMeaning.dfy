/** What the audit tool's text, report and gate functions mean, in the words of their inputs. */
module AuditMeaning {
  import opened Prelude
  import opened AuditText
  import opened AuditParser
  import opened AuditReport
  import opened AuditGate

  // ---------- text ----------

  predicate Blank(s: string) {
    forall c :: c in s ==> IsSpace(c)
  }

  /** Blanks, tabs and line ends are stripped; printable ASCII is not. */
  lemma SpaceMeans(c: char)
    ensures c == ' ' || c == '\t' || c == '\n' || c == '\r' ==> IsSpace(c)
    ensures '!' <= c <= '~' ==> !IsSpace(c)
  {
  }

  lemma {:induction false} StripLeftBlank(pre: string, s: string)
    requires Blank(pre) && (s == [] || !IsSpace(s[0]))
    ensures StripLeft(pre + s) == s
    decreases |pre|
  {
    if pre == [] {
      assert pre + s == s;
    } else {
      assert (pre + s)[0] == pre[0] && (pre + s)[1..] == pre[1..] + s;
      StripLeftBlank(pre[1..], s);
    }
  }

  lemma {:induction false} StripRightBlank(s: string, post: string)
    requires Blank(post) && (s == [] || !IsSpace(s[|s| - 1]))
    ensures StripRight(s + post) == s
    decreases |post|
  {
    if post == [] {
      assert s + post == s;
    } else {
      var all := s + post;
      assert all[|all| - 1] == post[|post| - 1] && all[..|all| - 1] == s + post[..|post| - 1];
      StripRightBlank(s, post[..|post| - 1]);
    }
  }

  lemma {:induction false} StripAllBlank(s: string)
    requires Blank(s)
    ensures StripLeft(s) == []
  {
    if s != [] { StripAllBlank(s[1..]); }
  }

  /** Stripping takes off exactly the blanks around a trimmed middle. */
  lemma StripMeans(pre: string, s: string, post: string)
    requires Blank(pre) && Blank(post) && Trimmed(s)
    ensures Strip(pre + s + post) == s
  {
    if s == [] {
      assert pre + s + post == pre + post;
      StripAllBlank(pre + post);
    } else {
      assert pre + s + post == pre + (s + post);
      StripLeftBlank(pre, s + post);
      StripRightBlank(s, post);
    }
  }

  lemma {:induction false} NoIndex(s: string, c: char)
    requires c !in s
    ensures IndexOf(s, c) == |s|
  {
    if s != [] {
      assert s[0] in s;
      NoIndex(s[1..], c);
    }
  }

  /** A line with a colon splits at the first one; a line without one cannot be split. */
  lemma SplitMeans(key: string, value: string)
    requires ':' !in key
    ensures SplitKv(key + ":" + value) == Some((Strip(key), Unquote(Strip(value))))
    ensures SplitKv(key) == None
  {
    var line := key + ":" + value;
    assert line[..|key|] == key && line[|key|] == ':' && line[|key| + 1..] == value;
    IndexOfUnique(line, ':', |key|);
    NoIndex(key, ':');
  }

  /** Quotes of one kind around a value are dropped, others stay. */
  lemma UnquoteMeans(value: string)
    ensures Unquote("\"" + value + "\"") == value && Unquote("'" + value + "'") == value
    ensures Unquote("\"") == "" && Unquote("'") == ""
    ensures value == [] || (value[0] != '"' && value[0] != '\'') || value[0] != value[|value| - 1] ==> Unquote(value) == value
  {
    assert ("\"" + value + "\"")[1..|value| + 1] == value;
    assert ("'" + value + "'")[1..|value| + 1] == value;
  }

  lemma StripSpace(value: string)
    requires Trimmed(value)
    ensures Strip(" " + value) == value
  {
    StripMeans(" ", value, "");
    assert " " + value + "" == " " + value;
  }

  lemma ColonSpace(key: string, value: string)
    ensures key + ": " + value == key + ":" + (" " + value)
  {
  }

  /** An unquoted value comes back as it stands, as in `package: xlsx`. */
  lemma SplitPlain(key: string, value: string)
    requires ':' !in key && Trimmed(key) && Trimmed(value)
    requires value != [] ==> value[0] != '"' && value[0] != '\''
    ensures SplitKv(key + ": " + value) == Some((key, value))
  {
    ColonSpace(key, value);
    SplitMeans(key, " " + value);
    StripTrims(key);
    StripSpace(value);
    UnquoteMeans(value);
  }

  // ---------- records and files ----------

  /** Setting a key replaces its value and no other. */
  lemma {:induction false} PutGet(r: Record, key: string, value: string, other: string)
    ensures Get(Put(r, key, value), other) == if other == key then Some(value) else Get(r, other)
  {
    if r != [] && r[0].0 != key {
      assert Put(r, key, value)[0] == r[0] && Put(r, key, value)[1..] == Put(r[1..], key, value);
      PutGet(r[1..], key, value, other);
    } else if r != [] {
      assert Put(r, key, value)[1..] == r[1..];
    }
  }

  /** With distinct keys, looking one up finds its value. */
  lemma {:induction false} GetMeans(r: Record, key: string, value: string)
    requires Distinct(AuditParser.Keys(r))
    ensures Get(r, key) == Some(value) <==> (key, value) in r
  {
    if r != [] {
      var ks := AuditParser.Keys(r);
      KeysTail(r);
      assert ks[1..] == AuditParser.Keys(r[1..]);
      forall i, j | 0 <= i < j < |r| - 1 ensures ks[1..][i] != ks[1..][j] { assert ks[i + 1] != ks[j + 1]; }
      GetMeans(r[1..], key, value);
      assert r == [r[0]] + r[1..];
      forall i | 0 <= i < |r| - 1 ensures r[1..][i].0 != r[0].0 { assert ks[i + 1] != ks[0]; }
    }
  }

  /** Blank lines, comments and the two header lines may stand anywhere without effect. */
  lemma NoiseIsSkipped(before: seq<string>, line: string, after: seq<string>)
    requires Strip(line) == "" || StartsWith(Strip(line), "#")
             || StartsWith(Strip(line), "version:") || StartsWith(Strip(line), "exceptions:")
    ensures Parse(before + [line] + after) == Parse(before + after)
  {
    RunAppend(State([], None), before + [line], after);
    RunAppend(State([], None), before, [line]);
    RunAppend(State([], None), before, after);
    var st := Run(State([], None), before);
    if st.Some? {
      assert [line][1..] == [];
      assert Run(st.value, [line]) == st;
    }
  }

  /** So may lines that open no item and have no colon. */
  lemma StrayIsSkipped(before: seq<string>, line: string, after: seq<string>)
    requires !StartsWith(Strip(line), "- ") && ':' !in Strip(line)
    ensures Parse(before + [line] + after) == Parse(before + after)
  {
    RunAppend(State([], None), before + [line], after);
    RunAppend(State([], None), before, [line]);
    RunAppend(State([], None), before, after);
    var st := Run(State([], None), before);
    if st.Some? {
      assert [line][1..] == [];
      assert Run(st.value, [line]) == st;
    }
  }

  /** An item that has text but no colon raises. */
  lemma BadItemRaises(before: seq<string>, item: string, after: seq<string>)
    requires Trimmed(item) && item != "" && ':' !in item
    ensures Parse(before + ["- " + item] + after) == None
  {
    var line := "- " + item;
    RunAppend(State([], None), before + [line], after);
    RunAppend(State([], None), before, [line]);
    StripTrims(line);
    StripTrims(item);
    assert line[..2] == "- " && line[2..] == item && line[0] == '-';
    StartsChars(line, "#", 0);
    StartsChars(line, "version:", 0);
    StartsChars(line, "exceptions:", 0);
    SplitMeans(item, "");
  }

  lemma {:induction false} WholeLine(s: string)
    requires OneLine(s)
    ensures LineEnd(s) == |s|
  {
    if s != [] {
      assert s[0] in s;
      WholeLine(s[1..]);
    }
  }

  /** A file may end its lines with LF or CR LF, and its last line with nothing. */
  lemma LinesMean(line: string, rest: string)
    requires OneLine(line)
    ensures Lines(line + "\n" + rest) == [line] + Lines(rest)
    ensures Lines(line + "\r\n" + rest) == [line] + Lines(rest)
    ensures line != "" ==> Lines(line) == [line]
  {
    LinesFirst(line, rest);
    var text := line + "\r\n" + rest;
    assert text[..|line|] == line && text[|line|] == '\r' && text[|line|..] == "\r\n" + rest;
    assert text[|line|..][..2] == "\r\n" && text[|line| + 2..] == rest;
    LineEndAt(text, |line|);
    WholeLine(line);
  }

  /** Or with CR alone. */
  lemma CarriageReturn(line: string, rest: string)
    requires OneLine(line) && !StartsWith(rest, "\n")
    ensures Lines(line + "\r" + rest) == [line] + Lines(rest)
  {
    var text := line + "\r" + rest;
    assert text[..|line|] == line && text[|line|] == '\r' && text[|line|..] == "\r" + rest && text[|line| + 1..] == rest;
    LineEndAt(text, |line|);
    StartsChars("\r" + rest, "\r\n", 1);
    assert rest != "" ==> rest[..1] == [rest[0]];
  }

  // ---------- the report ----------

  /** What Python takes for false. */
  lemma TruthyMeans(j: Json)
    ensures !Truthy(j) <==> j == Null || j == Bool(false) || j == Num(0) || j == Text("") || j == Arr([]) || j == Obj([])
  {
  }

  ghost predicate DistinctFields(fields: seq<(string, Json)>) {
    forall i, j :: 0 <= i < j < |fields| ==> fields[i].0 != fields[j].0
  }

  /** A field's value, or null without one. */
  lemma {:induction false} FieldMeans(fields: seq<(string, Json)>, key: string, i: nat)
    requires DistinctFields(fields)
    ensures i < |fields| && fields[i].0 == key ==> Field(fields, key) == fields[i].1
    ensures (forall k :: 0 <= k < |fields| ==> fields[k].0 != key) ==> Field(fields, key) == Null
  {
    if fields != [] {
      var rest := fields[1..];
      if fields[0].0 != key { FieldMeans(rest, key, if i > 0 then i - 1 else 0); }
    }
  }

  /** The first of several values that counts as true, or else the last one. */
  ghost predicate FirstTrue(values: seq<Json>, j: Json) {
    exists i :: 0 <= i < |values| && j == values[i] && (Truthy(values[i]) || i == |values| - 1)
                && forall k | 0 <= k < i :: !Truthy(values[k])
  }

  lemma OrMeans(a: Json, rest: seq<Json>, b: Json)
    requires rest != [] && FirstTrue(rest, b)
    ensures FirstTrue([a] + rest, Or(a, b))
  {
    var values := [a] + rest;
    if Truthy(a) {
      assert values[0] == a;
    } else {
      var i :| 0 <= i < |rest| && b == rest[i] && (Truthy(rest[i]) || i == |rest| - 1) && forall k | 0 <= k < i :: !Truthy(rest[k]);
      assert values[i + 1] == rest[i];
      forall k | 0 <= k < i + 1 ensures !Truthy(values[k]) { if k > 0 { assert values[k] == rest[k - 1]; } }
    }
  }

  lemma LastMeans(a: Json)
    ensures FirstTrue([a], a)
  {
    assert [a][0] == a;
  }

  /** The values of some fields, in order. */
  function Values(fields: seq<(string, Json)>, keys: seq<string>): (values: seq<Json>)
    ensures |values| == |keys| && forall i :: 0 <= i < |keys| ==> values[i] == Field(fields, keys[i])
  {
    Map((key: string) => Field(fields, key), keys)
  }

  lemma ValuesCons(fields: seq<(string, Json)>, key: string, keys: seq<string>)
    ensures Values(fields, [key] + keys) == [Field(fields, key)] + Values(fields, keys)
  {
  }

  lemma {:induction false} OneField(fields: seq<(string, Json)>, key: string)
    ensures FirstTrue(Values(fields, [key]), Field(fields, key))
  {
    LastMeans(Field(fields, key));
    assert Values(fields, [key]) == [Field(fields, key)];
  }

  lemma OrField(fields: seq<(string, Json)>, key: string, keys: seq<string>, b: Json)
    requires keys != [] && FirstTrue(Values(fields, keys), b)
    ensures FirstTrue(Values(fields, [key] + keys), Or(Field(fields, key), b))
  {
    OrMeans(Field(fields, key), Values(fields, keys), b);
    ValuesCons(fields, key, keys);
  }

  /** The identifier of an item of a `via` list: the first of these fields that counts as true; a
      string is its own identifier, and other items have none. */
  lemma ViaIdMeans(item: Json)
    ensures item.Obj? ==> FirstTrue(Values(item.fields, ["github_advisory_id", "url", "source", "title", "name"]), ViaId(item))
    ensures item.Text? ==> ViaId(item) == item
    ensures !item.Obj? && !item.Text? ==> ViaId(item) == Null
  {
    if item.Obj? {
      var v := item.fields;
      OneField(v, "name");
      OrField(v, "title", ["name"], Field(v, "name"));
      assert ["title"] + ["name"] == ["title", "name"];
      var a := Or(Field(v, "title"), Field(v, "name"));
      OrField(v, "source", ["title", "name"], a);
      assert ["source"] + ["title", "name"] == ["source", "title", "name"];
      var b := Or(Field(v, "source"), a);
      OrField(v, "url", ["source", "title", "name"], b);
      assert ["url"] + ["source", "title", "name"] == ["url", "source", "title", "name"];
      OrField(v, "github_advisory_id", ["url", "source", "title", "name"], Or(Field(v, "url"), b));
      assert ["github_advisory_id"] + ["url", "source", "title", "name"] == ["github_advisory_id", "url", "source", "title", "name"];
    }
  }

  /** The first entry of `cves`, or nothing when there is none. */
  ghost predicate FirstEntry(cves: Json, cve: Json) {
    if !Truthy(cves) then cve == Null
    else (cves.Arr? && cve == cves.items[0]) || (cves.Text? && cve == Text([cves.s[0]]))
  }

  ghost function ShownId(show: Json -> string, id: Json): Json {
    match id
    case Null => Null
    case Text(_) => id
    case _ => Text(show(id))
  }

  ghost predicate HasStableId(a: seq<(string, Json)>) {
    Truthy(Field(a, "github_advisory_id")) || Truthy(Field(a, "url"))
  }

  /** The identifier of an advisory: the first that counts as true of its GHSA id, its URL, its first
      CVE, its number as text, and its title, advisory and overview. */
  ghost predicate IdentifiedBy(show: Json -> string, a: seq<(string, Json)>, id: Json) {
    if HasStableId(a) then FirstTrue(Values(a, ["github_advisory_id", "url"]), id)
    else exists cve :: FirstEntry(Field(a, "cves"), cve)
           && FirstTrue([cve, ShownId(show, Field(a, "id"))] + Values(a, ["title", "advisory", "overview"]), id)
  }

  /** Reading the identifier gets to `cves` and finds something true that has no first entry. */
  ghost predicate Unidentifiable(a: seq<(string, Json)>) {
    !HasStableId(a) && Truthy(Field(a, "cves")) && !Field(a, "cves").Arr? && !Field(a, "cves").Text?
  }

  /** Reading an advisory raises exactly when it is unidentifiable, and otherwise gives its
      identifier, which is the only one. */
  lemma PickMeans(show: Json -> string, a: seq<(string, Json)>)
    ensures PickAdvisoryId(show, a) == None <==> Unidentifiable(a)
    ensures PickAdvisoryId(show, a).Some? ==> forall id :: IdentifiedBy(show, a, id) <==> id == PickAdvisoryId(show, a).value
  {
    if HasStableId(a) {
      PickStable(a);
    } else if FirstCve(Field(a, "cves")).Some? {
      PickLater(show, a);
      OneFirst(a, show);
    }
  }

  lemma PickStable(a: seq<(string, Json)>)
    ensures forall id :: FirstTrue(Values(a, ["github_advisory_id", "url"]), id) <==>
                         id == Or(Field(a, "github_advisory_id"), Field(a, "url"))
  {
    OneField(a, "url");
    OrField(a, "github_advisory_id", ["url"], Field(a, "url"));
    assert ["github_advisory_id"] + ["url"] == ["github_advisory_id", "url"];
    OnlyFirst(Values(a, ["github_advisory_id", "url"]), Or(Field(a, "github_advisory_id"), Field(a, "url")));
  }

  /** There is only one first. */
  lemma OnlyFirst(values: seq<Json>, j: Json)
    requires FirstTrue(values, j)
    ensures forall id :: FirstTrue(values, id) <==> id == j
  {
    var i :| 0 <= i < |values| && j == values[i] && (Truthy(values[i]) || i == |values| - 1) && forall k | 0 <= k < i :: !Truthy(values[k]);
    forall id | FirstTrue(values, id) ensures id == j {
      var n :| 0 <= n < |values| && id == values[n] && (Truthy(values[n]) || n == |values| - 1) && forall k | 0 <= k < n :: !Truthy(values[k]);
      assert i == n;
    }
  }

  lemma PickTitle(a: seq<(string, Json)>)
    ensures FirstTrue(Values(a, ["title", "advisory", "overview"]), Or(Field(a, "title"), Or(Field(a, "advisory"), Field(a, "overview"))))
  {
    OneField(a, "overview");
    OrField(a, "advisory", ["overview"], Field(a, "overview"));
    assert ["advisory"] + ["overview"] == ["advisory", "overview"];
    OrField(a, "title", ["advisory", "overview"], Or(Field(a, "advisory"), Field(a, "overview")));
    assert ["title"] + ["advisory", "overview"] == ["title", "advisory", "overview"];
  }

  lemma PickLater(show: Json -> string, a: seq<(string, Json)>)
    requires !HasStableId(a) && FirstCve(Field(a, "cves")).Some?
    ensures var id, cve := PickAdvisoryId(show, a), FirstCve(Field(a, "cves")).value;
            && id.Some? && FirstEntry(Field(a, "cves"), cve)
            && FirstTrue([cve, ShownId(show, Field(a, "id"))] + Values(a, ["title", "advisory", "overview"]), id.value)
  {
    var cve, shown, rest := FirstCve(Field(a, "cves")).value, ShownId(show, Field(a, "id")), Values(a, ["title", "advisory", "overview"]);
    var title := Or(Field(a, "title"), Or(Field(a, "advisory"), Field(a, "overview")));
    PickTitle(a);
    OrMeans(shown, rest, title);
    OrMeans(cve, [shown] + rest, Or(shown, title));
    assert [cve] + ([shown] + rest) == [cve, shown] + rest;
  }

  lemma OneFirst(a: seq<(string, Json)>, show: Json -> string)
    requires !HasStableId(a) && PickAdvisoryId(show, a).Some? && FirstCve(Field(a, "cves")).Some?
    requires FirstTrue([FirstCve(Field(a, "cves")).value, ShownId(show, Field(a, "id"))] + Values(a, ["title", "advisory", "overview"]),
                       PickAdvisoryId(show, a).value)
    ensures forall id :: IdentifiedBy(show, a, id) <==> id == PickAdvisoryId(show, a).value
  {
    var cve := FirstCve(Field(a, "cves")).value;
    assert forall c :: FirstEntry(Field(a, "cves"), c) <==> c == cve;
    OnlyFirst([cve, ShownId(show, Field(a, "id"))] + Values(a, ["title", "advisory", "overview"]), PickAdvisoryId(show, a).value);
  }

  /** The finding of one entry of `advisories`. */
  ghost predicate FromAdvisories(show: Json -> string, advisory: Json, f: Finding) {
    && advisory.Obj? && FirstTrue(Values(advisory.fields, ["module_name", "name"]), f.name)
    && f.severity == Field(advisory.fields, "severity") && IdentifiedBy(show, advisory.fields, f.advisory)
  }

  /** A finding of one entry of `vulnerabilities`: one of the items that it came in by. */
  ghost predicate FromVulnerabilities(name: string, vuln: Json, f: Finding) {
    && vuln.Obj? && f.name == Text(name) && f.severity == Field(vuln.fields, "severity") && Truthy(f.advisory)
    && (var via := Field(vuln.fields, "via");
        if via.Text? then f.advisory == via
        else via.Arr? && exists item :: item in via.items && f.advisory == ViaId(item))
  }

  lemma AdvisoryMeans(show: Json -> string, advisory: Json)
    ensures AdvisoryFindings(show, advisory) == None <==> !advisory.Obj? || Unidentifiable(advisory.fields)
    ensures AdvisoryFindings(show, advisory).Some? ==>
              forall f :: f in AdvisoryFindings(show, advisory).value <==> FromAdvisories(show, advisory, f)
  {
    if advisory.Obj? {
      var a := advisory.fields;
      PickMeans(show, a);
      OneField(a, "name");
      OrField(a, "module_name", ["name"], Field(a, "name"));
      assert ["module_name"] + ["name"] == ["module_name", "name"];
      OnlyFirst(Values(a, ["module_name", "name"]), Or(Field(a, "module_name"), Field(a, "name")));
    }
  }

  /** A title that an object in a `via` list shows and that is not text cannot be joined. */
  ghost predicate Untitled(item: Json) {
    item.Obj? && exists t :: FirstTrue(Values(item.fields, ["title", "url", "advisory", "source"]), t) && Truthy(t) && !t.Text?
  }

  lemma TitleMeans(item: Json)
    ensures Truthy(ViaTitle(item)) && !ViaTitle(item).Text? <==> Untitled(item)
  {
    if item.Obj? {
      var v := item.fields;
      OneField(v, "source");
      OrField(v, "advisory", ["source"], Field(v, "source"));
      assert ["advisory"] + ["source"] == ["advisory", "source"];
      var b := Or(Field(v, "advisory"), Field(v, "source"));
      OrField(v, "url", ["advisory", "source"], b);
      assert ["url"] + ["advisory", "source"] == ["url", "advisory", "source"];
      var c := Or(Field(v, "url"), b);
      OrField(v, "title", ["url", "advisory", "source"], c);
      assert ["title"] + ["url", "advisory", "source"] == ["title", "url", "advisory", "source"];
      OnlyFirst(Values(v, ["title", "url", "advisory", "source"]), ViaTitle(item));
    }
  }

  /** A vulnerability cannot be read if it is no object or some title in its list cannot be joined. */
  ghost predicate Unreadable(vuln: Json) {
    !vuln.Obj? || (Field(vuln.fields, "via").Arr? && exists item :: item in Field(vuln.fields, "via").items && Untitled(item))
  }

  lemma TitlesMean(items: seq<Json>)
    ensures TitlesJoin(items) <==> forall item :: item in items ==> !Untitled(item)
  {
    var titles := Map((i: Json) => ViaTitle(i), items);
    forall k | 0 <= k < |items| ensures titles[k] == ViaTitle(items[k]) && titles[k] in titles { TitleMeans(items[k]); }
    if TitlesJoin(items) {
      forall item | item in items ensures !Untitled(item) {
        var k :| 0 <= k < |items| && items[k] == item;
        TitleMeans(items[k]);
      }
    }
    if forall item :: item in items ==> !Untitled(item) {
      forall t | t in titles && Truthy(t) ensures t.Text? {
        var k :| 0 <= k < |titles| && titles[k] == t;
        TitleMeans(items[k]);
      }
    }
  }

  lemma VulnMeans(name: string, vuln: Json)
    ensures VulnFindings(name, vuln) == None <==> Unreadable(vuln)
    ensures VulnFindings(name, vuln).Some? ==>
              forall f :: f in VulnFindings(name, vuln).value <==> FromVulnerabilities(name, vuln, f)
  {
    if vuln.Obj? {
      var items, via := ViaItems(vuln.fields), Field(vuln.fields, "via");
      TitlesMean(items);
      UsableMeans(items);
      TuplesMean(name, Field(vuln.fields, "severity"), UsableIds(items));
      if via.Text? { assert items == [via] && items[0] == via; }
    }
  }

  lemma TuplesMean(name: string, severity: Json, ids: seq<Json>)
    ensures forall f :: f in Tuples(name, severity, ids) <==> f.name == Text(name) && f.severity == severity && f.advisory in ids
  {
    forall f ensures f in Tuples(name, severity, ids) <==> f.name == Text(name) && f.severity == severity && f.advisory in ids {
      if f.name == Text(name) && f.severity == severity && f.advisory in ids {
        var k :| 0 <= k < |ids| && ids[k] == f.advisory;
        assert Tuples(name, severity, ids)[k] == f;
      }
    }
  }

  lemma UsableMeans(items: seq<Json>)
    ensures forall id :: id in UsableIds(items) <==> Truthy(id) && exists item :: item in items && id == ViaId(item)
  {
    var all := Map((i: Json) => ViaId(i), items);
    FilterMembers((j: Json) => Truthy(j), all);
    forall id ensures id in all <==> exists item :: item in items && id == ViaId(item) {
      if id in all {
        var k :| 0 <= k < |all| && all[k] == id;
        assert items[k] in items;
      }
      if item :| item in items && id == ViaId(item) {
        var k :| 0 <= k < |items| && items[k] == item;
        assert all[k] == id;
      }
    }
  }

  lemma {:induction false} GatherMembers(one: ((string, Json)) -> Option<seq<Finding>>, entries: seq<(string, Json)>)
    ensures Gather(one, entries).Some? <==> forall e :: e in entries ==> one(e).Some?
    ensures Gather(one, entries).Some? ==>
              forall f :: f in Gather(one, entries).value <==> exists e :: e in entries && one(e).Some? && f in one(e).value
  {
    if entries != [] {
      GatherMembers(one, entries[1..]);
      assert entries == [entries[0]] + entries[1..];
      assert entries[0] in entries;
    }
  }

  /** The entries of an object field; none if the field is missing or something else. */
  ghost function Entries(report: Json, key: string): seq<(string, Json)>
    requires report.Obj?
  {
    if Field(report.fields, key).Obj? then Field(report.fields, key).fields else []
  }

  /** What the gate reads from a report: exactly the findings of its advisories and of its
      vulnerabilities; and reading raises exactly when the report is no object or some entry cannot
      be read. */
  lemma ReportMeans(show: Json -> string, report: Json)
    ensures Findings(show, report) == None <==>
            || !report.Obj?
            || (exists e :: e in Entries(report, "advisories") && (!e.1.Obj? || Unidentifiable(e.1.fields)))
            || (exists e :: e in Entries(report, "vulnerabilities") && Unreadable(e.1))
    ensures Findings(show, report).Some? ==> forall f :: f in Findings(show, report).value <==>
              || (exists e :: e in Entries(report, "advisories") && FromAdvisories(show, e.1, f))
              || (exists e :: e in Entries(report, "vulnerabilities") && FromVulnerabilities(e.0, e.1, f))
  {
    if report.Obj? {
      var a, v := Entries(report, "advisories"), Entries(report, "vulnerabilities");
      AdvisoriesMean(show, a);
      VulnerabilitiesMean(v);
    }
  }

  /** They come in the order of the report: one for each advisory, then those of vulnerabilities. */
  lemma ReportOrder(show: Json -> string, report: Json) returns (first: seq<Finding>, later: seq<Finding>)
    requires Findings(show, report).Some?
    ensures report.Obj? && Findings(show, report).value == first + later
    ensures var a := Entries(report, "advisories");
            |first| == |a| && forall i :: 0 <= i < |a| ==> FromAdvisories(show, a[i].1, first[i])
    ensures forall f :: f in later <==> exists e :: e in Entries(report, "vulnerabilities") && FromVulnerabilities(e.0, e.1, f)
  {
    var a, v := Entries(report, "advisories"), Entries(report, "vulnerabilities");
    first, later := Gather(FromAdvisory(show), a).value, Gather(FromVuln(), v).value;
    AdvisoryOrder(show, a);
    VulnerabilitiesMean(v);
  }

  lemma {:induction false} AdvisoryOrder(show: Json -> string, entries: seq<(string, Json)>)
    requires Gather(FromAdvisory(show), entries).Some?
    ensures var fs := Gather(FromAdvisory(show), entries).value;
            |fs| == |entries| && forall i :: 0 <= i < |fs| ==> FromAdvisories(show, entries[i].1, fs[i])
  {
    if entries != [] {
      var first, rest := AdvisoryFindings(show, entries[0].1).value, Gather(FromAdvisory(show), entries[1..]).value;
      AdvisoryMeans(show, entries[0].1);
      AdvisoryOrder(show, entries[1..]);
      assert first[0] in first && Gather(FromAdvisory(show), entries).value == first + rest;
    }
  }

  lemma AdvisoriesMean(show: Json -> string, entries: seq<(string, Json)>)
    ensures Gather(FromAdvisory(show), entries) == None <==>
            exists e :: e in entries && (!e.1.Obj? || Unidentifiable(e.1.fields))
    ensures Gather(FromAdvisory(show), entries).Some? ==> forall f :: f in Gather(FromAdvisory(show), entries).value <==>
              exists e :: e in entries && FromAdvisories(show, e.1, f)
  {
    GatherMembers(FromAdvisory(show), entries);
    forall e: (string, Json)
      ensures FromAdvisory(show)(e) == None <==> !e.1.Obj? || Unidentifiable(e.1.fields)
      ensures FromAdvisory(show)(e).Some? ==> forall f :: f in FromAdvisory(show)(e).value <==> FromAdvisories(show, e.1, f)
    {
      AdvisoryMeans(show, e.1);
    }
  }

  lemma VulnerabilitiesMean(entries: seq<(string, Json)>)
    ensures Gather(FromVuln(), entries) == None <==> exists e :: e in entries && Unreadable(e.1)
    ensures Gather(FromVuln(), entries).Some? ==> forall f :: f in Gather(FromVuln(), entries).value <==>
              exists e :: e in entries && FromVulnerabilities(e.0, e.1, f)
  {
    GatherMembers(FromVuln(), entries);
    forall e: (string, Json)
      ensures FromVuln()(e) == None <==> Unreadable(e.1)
      ensures FromVuln()(e).Some? ==> forall f :: f in FromVuln()(e).value <==> FromVulnerabilities(e.0, e.1, f)
    {
      VulnMeans(e.0, e.1);
    }
  }

  // ---------- the verdict and the spelling of identifiers ----------

  /** The same text but for case and outer blanks. */
  ghost predicate Respelt(env: Env, a: string, b: string) {
    env.lower(Strip(a)) == env.lower(Strip(b))
  }

  lemma BlanksRespell(env: Env, pre: string, s: string, t: string, post: string)
    requires Blank(pre) && Blank(post) && Trimmed(s) && Trimmed(t) && env.lower(s) == env.lower(t)
    ensures Respelt(env, s, pre + t + post)
  {
    StripMeans(pre, t, post);
    StripTrims(s);
  }

  /** The same finding with its advisory spelt another way. */
  ghost predicate RespeltFinding(env: Env, f: Finding, g: Finding) {
    && g.name == f.name && g.severity == f.severity
    && (g.advisory == f.advisory || (f.advisory.Text? && g.advisory.Text? && Respelt(env, f.advisory.s, g.advisory.s)))
  }

  ghost predicate RespeltFindings(env: Env, findings: seq<Finding>, other: seq<Finding>) {
    |findings| == |other| && forall k :: 0 <= k < |findings| ==> RespeltFinding(env, findings[k], other[k])
  }

  /** The same exception with its advisory spelt another way. */
  ghost predicate RespeltRecord(env: Env, r: Record, q: Record) {
    && (forall key :: key != "advisory" ==> Get(q, key) == Get(r, key))
    && Get(r, "advisory").Some? && Get(q, "advisory").Some?
    && (Value(r, "advisory") == "" <==> Value(q, "advisory") == "") && Respelt(env, Value(r, "advisory"), Value(q, "advisory"))
  }

  ghost predicate RespeltRecords(env: Env, exceptions: seq<Record>, other: seq<Record>) {
    |exceptions| == |other| && forall k :: 0 <= k < |exceptions| ==> RespeltRecord(env, exceptions[k], other[k])
  }

  lemma OtherValues(env: Env, r: Record, q: Record)
    requires RespeltRecord(env, r, q)
    ensures Value(q, "package") == Value(r, "package") && Value(q, "severity") == Value(r, "severity")
    ensures Value(q, "mitigation") == Value(r, "mitigation") && Value(q, "expires_on") == Value(r, "expires_on")
  {
    assert "package"[0] == 'p' && "severity"[0] == 's' && "mitigation"[0] == 'm' && "expires_on"[0] == 'e' && "advisory"[0] == 'a';
    assert "package" != "advisory" && "severity" != "advisory" && "mitigation" != "advisory" && "expires_on" != "advisory";
  }

  lemma RespeltCovers(env: Env, r: Record, q: Record, f: Finding, g: Finding)
    requires RespeltRecord(env, r, q) && RespeltFinding(env, f, g)
    ensures Covers(env, q, g) <==> Covers(env, r, f)
    ensures Unexpired(env, q) <==> Unexpired(env, r)
    ensures SeverityFits(env, q, g) <==> SeverityFits(env, r, f)
  {
    OtherValues(env, r, q);
  }

  lemma RespeltComplete(env: Env, r: Record, q: Record)
    requires RespeltRecord(env, r, q)
    ensures Complete(env, q) <==> Complete(env, r)
  {
    OtherValues(env, r, q);
    CompleteMeans(env, r);
    CompleteMeans(env, q);
  }

  lemma RespeltSerious(env: Env, f: Finding, g: Finding)
    requires RespeltFinding(env, f, g)
    ensures (Serious(env, g) <==> Serious(env, f)) && (HasSeverity(g) <==> HasSeverity(f))
    ensures Identified(env, g) <==> Identified(env, f)
  {
  }

  lemma RespeltAllowed(env: Env, exceptions: seq<Record>, other: seq<Record>, f: Finding, g: Finding)
    requires RespeltRecords(env, exceptions, other) && RespeltFinding(env, f, g)
    ensures Allowed(env, other, g) <==> Allowed(env, exceptions, f)
  {
    RespeltSerious(env, f, g);
    forall k | 0 <= k < |exceptions| { RespeltCovers(env, exceptions[k], other[k], f, g); }
    SomeByIndex(exceptions, (r: Record) => Covers(env, r, f) && Unexpired(env, r));
    SomeByIndex(other, (r: Record) => Covers(env, r, g) && Unexpired(env, r));
  }

  lemma RespeltFit(env: Env, exceptions: seq<Record>, other: seq<Record>, f: Finding, g: Finding)
    requires RespeltRecords(env, exceptions, other) && RespeltFinding(env, f, g)
    ensures AllFit(env, other, g) <==> AllFit(env, exceptions, f)
  {
    forall k | 0 <= k < |exceptions| { RespeltCovers(env, exceptions[k], other[k], f, g); }
    SomeByIndex(exceptions, (r: Record) => Covers(env, r, f) && !SeverityFits(env, r, f));
    SomeByIndex(other, (r: Record) => Covers(env, r, g) && !SeverityFits(env, r, g));
  }

  lemma SomeByIndex<T(!new)>(xs: seq<T>, p: T -> bool)
    ensures (exists x :: x in xs && p(x)) <==> exists k :: 0 <= k < |xs| && p(xs[k])
  {
    if x :| x in xs && p(x) {
      var k :| 0 <= k < |xs| && xs[k] == x;
    }
  }

  lemma RespeltPair(env: Env, f: Finding, g: Finding, f': Finding, g': Finding)
    requires RespeltFinding(env, f, f') && RespeltFinding(env, g, g')
    ensures SameFinding(env, f', g') <==> SameFinding(env, f, g)
  {
  }

  lemma RespeltExceptions(env: Env, exceptions: seq<Record>, other: seq<Record>)
    requires RespeltRecords(env, exceptions, other)
    ensures (forall r :: r in exceptions ==> Complete(env, r)) <==> (forall r :: r in other ==> Complete(env, r))
    ensures forall i, j :: 0 <= i < j < |exceptions| ==>
              (SameException(env, exceptions[i], exceptions[j]) <==> SameException(env, other[i], other[j]))
  {
    forall k | 0 <= k < |exceptions|
      ensures Complete(env, other[k]) <==> Complete(env, exceptions[k])
      ensures Value(other[k], "package") == Value(exceptions[k], "package")
    {
      RespeltComplete(env, exceptions[k], other[k]);
      OtherValues(env, exceptions[k], other[k]);
    }
    SomeByIndex(exceptions, (r: Record) => !Complete(env, r));
    SomeByIndex(other, (r: Record) => !Complete(env, r));
  }

  lemma RespeltFirsts(env: Env, findings: seq<Finding>, other: seq<Finding>, j: nat)
    requires RespeltFindings(env, findings, other) && j < |findings|
    ensures IsFirst(env, other, j) <==> IsFirst(env, findings, j)
  {
    forall i | 0 <= i < j
      ensures (Serious(env, other[i]) <==> Serious(env, findings[i]))
              && (SameFinding(env, other[i], other[j]) <==> SameFinding(env, findings[i], findings[j]))
    {
      RespeltSerious(env, findings[i], other[i]);
      RespeltPair(env, findings[i], findings[j], other[i], other[j]);
    }
  }

  /** The verdict does not depend on the case of advisories or on the blanks around them, in the
      report or in the exception file. */
  lemma SpellingIrrelevant(env: Env, exceptions: seq<Record>, exceptions': seq<Record>, findings: seq<Finding>, findings': seq<Finding>)
    requires RespeltRecords(env, exceptions, exceptions') && RespeltFindings(env, findings, findings')
    ensures Admits(env, exceptions', findings') <==> Admits(env, exceptions, findings)
  {
    RespeltExceptions(env, exceptions, exceptions');
    forall k | 0 <= k < |findings|
      ensures Good(env, exceptions', findings'[k]) <==> Good(env, exceptions, findings[k])
      ensures (Serious(env, findings'[k]) && IsFirst(env, findings', k) ==> AllFit(env, exceptions', findings'[k])) <==>
              (Serious(env, findings[k]) && IsFirst(env, findings, k) ==> AllFit(env, exceptions, findings[k]))
    {
      RespeltSerious(env, findings[k], findings'[k]);
      RespeltAllowed(env, exceptions, exceptions', findings[k], findings'[k]);
      RespeltFit(env, exceptions, exceptions', findings[k], findings'[k]);
      RespeltFirsts(env, findings, findings', k);
    }
    SomeByIndex(findings, (f: Finding) => !Good(env, exceptions, f));
    SomeByIndex(findings', (f: Finding) => !Good(env, exceptions', f));
  }

  ghost predicate Good(env: Env, exceptions: seq<Record>, f: Finding) {
    HasSeverity(f) && (Serious(env, f) ==> Allowed(env, exceptions, f))
  }

  function UpperEnv(): Env {
    SampleEnv().(lower := (s: string) => if s == "A" then "a" else s)
  }

  function UpperFinding(): Finding {
    Finding(Text("p"), Text("high"), Text("A"))
  }

  lemma UpperIsCovered()
    ensures Covers(UpperEnv(), Sample(), UpperFinding()) && SeverityFits(UpperEnv(), Sample(), UpperFinding())
    ensures Serious(UpperEnv(), UpperFinding()) && Identified(UpperEnv(), UpperFinding())
  {
    StripTrims("A");
    StripTrims("a");
    StripTrims("p");
    StripTrims("high");
    SampleFields();
  }

  lemma UpperIsComplete()
    ensures Complete(UpperEnv(), Sample()) && Unexpired(UpperEnv(), Sample())
  {
    StripTrims("a");
    StripTrims("p");
    SampleFields();
    CompleteMeans(UpperEnv(), Sample());
  }

  lemma OneAdmitted(env: Env, r: Record, f: Finding)
    requires Complete(env, r) && Unexpired(env, r) && Covers(env, r, f) && SeverityFits(env, r, f)
    requires Serious(env, f) && Identified(env, f)
    ensures Admits(env, [r], [f])
  {
    assert r in [r];
    assert Allowed(env, [r], f) && AllFit(env, [r], f);
  }

  /** An exception written in lower case excuses a finding reported in upper case. */
  lemma UpperCaseIsExcused()
    ensures Admits(UpperEnv(), [Sample()], [UpperFinding()])
  {
    UpperIsCovered();
    UpperIsComplete();
    OneAdmitted(UpperEnv(), Sample(), UpperFinding());
  }
}
