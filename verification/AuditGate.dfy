/** The audit report and the tuples the gate takes from it. */
module AuditReport {
  import opened Prelude

  datatype Json = Null | Bool(b: bool) | Num(n: int) | Text(s: string)
                | Arr(items: seq<Json>) | Obj(fields: seq<(string, Json)>)

  /** What the gate takes from one reported vulnerability; the title only words messages. */
  datatype Finding = Finding(name: Json, severity: Json, advisory: Json)

  predicate Truthy(j: Json) {
    match j
    case Null => false
    case Bool(b) => b
    case Num(n) => n != 0
    case Text(s) => s != []
    case Arr(items) => items != []
    case Obj(fields) => fields != []
  }

  function Or(a: Json, b: Json): Json {
    if Truthy(a) then a else b
  }

  function Field(fields: seq<(string, Json)>, key: string): Json {
    if fields == [] then Null
    else if fields[0].0 == key then fields[0].1
    else Field(fields[1..], key)
  }

  /** (cves or [None])[0]; None where indexing raises. */
  function FirstCve(cves: Json): Option<Json> {
    if !Truthy(cves) then Some(Null)
    else match cves
      case Arr(items) => Some(items[0])
      case Text(s) => Some(Text(s[..1]))
      case _ => None
  }

  /** The identifier of an `advisories` entry; `show` is str() on values that are not text. */
  function PickAdvisoryId(show: Json -> string, a: seq<(string, Json)>): Option<Json> {
    var stable := Or(Field(a, "github_advisory_id"), Field(a, "url"));
    if Truthy(stable) then Some(stable)
    else match FirstCve(Field(a, "cves"))
      case None => None
      case Some(cve) =>
        var id := Field(a, "id");
        var shown := if id == Null then Null else if id.Text? then id else Text(show(id));
        Some(Or(cve, Or(shown, Or(Field(a, "title"), Or(Field(a, "advisory"), Field(a, "overview"))))))
  }

  /** What one entry of `advisories` yields; None where reading it raises. */
  function AdvisoryFindings(show: Json -> string, advisory: Json): Option<seq<Finding>> {
    match advisory
    case Obj(a) =>
      (match PickAdvisoryId(show, a)
       case None => None
       case Some(id) => Some([Finding(Or(Field(a, "module_name"), Field(a, "name")), Field(a, "severity"), id)]))
    case _ => None
  }

  function ViaId(item: Json): Json {
    match item
    case Obj(v) => Or(Field(v, "github_advisory_id"), Or(Field(v, "url"), Or(Field(v, "source"),
                     Or(Field(v, "title"), Field(v, "name")))))
    case Text(_) => item
    case _ => Null
  }

  function ViaTitle(item: Json): Json {
    match item
    case Obj(v) => Or(Field(v, "title"), Or(Field(v, "url"), Or(Field(v, "advisory"), Field(v, "source"))))
    case Text(_) => item
    case _ => Null
  }

  /** The `via` list of a vulnerability: a missing one is empty, a bare string is its only item. */
  function ViaItems(fields: seq<(string, Json)>): seq<Json> {
    match Field(fields, "via")
    case Arr(items) => items
    case Text(s) => [Text(s)]
    case _ => []
  }

  function AllTruthy(values: seq<Json>): seq<Json> {
    Filter((j: Json) => Truthy(j), values)
  }

  /** The usable identifiers of a vulnerability. */
  function UsableIds(items: seq<Json>): seq<Json> {
    AllTruthy(Map((i: Json) => ViaId(i), items))
  }

  predicate AllText(values: seq<Json>) {
    forall t :: t in values && Truthy(t) ==> t.Text?
  }

  /** Joining the titles raises unless every usable title is text. */
  predicate TitlesJoin(items: seq<Json>) {
    AllText(Map((i: Json) => ViaTitle(i), items))
  }

  function Tuples(name: string, severity: Json, ids: seq<Json>): seq<Finding> {
    Map((id: Json) => Finding(Text(name), severity, id), ids)
  }

  /** What one entry of `vulnerabilities` yields: one finding per usable identifier. */
  function VulnFindings(name: string, vuln: Json): Option<seq<Finding>> {
    match vuln
    case Obj(v) =>
      if !TitlesJoin(ViaItems(v)) then None
      else Some(Tuples(name, Field(v, "severity"), UsableIds(ViaItems(v))))
    case _ => None
  }

  /** All entries of a section, in order. */
  function Gather(one: ((string, Json)) -> Option<seq<Finding>>, entries: seq<(string, Json)>): Option<seq<Finding>> {
    if entries == [] then Some([])
    else match (one(entries[0]), Gather(one, entries[1..]))
      case (Some(fs), Some(rest)) => Some(fs + rest)
      case _ => None
  }

  function FromAdvisory(show: Json -> string): ((string, Json)) -> Option<seq<Finding>> {
    (e: (string, Json)) => AdvisoryFindings(show, e.1)
  }

  function FromVuln(): ((string, Json)) -> Option<seq<Finding>> {
    (e: (string, Json)) => VulnFindings(e.0, e.1)
  }

  function Section(report: seq<(string, Json)>, key: string): seq<(string, Json)> {
    match Field(report, key)
    case Obj(entries) => entries
    case _ => []
  }

  /** Everything the report yields, advisories first; None where reading it raises. */
  function Findings(show: Json -> string, report: Json): Option<seq<Finding>> {
    match report
    case Obj(fields) =>
      (match (Gather(FromAdvisory(show), Section(fields, "advisories")), Gather(FromVuln(), Section(fields, "vulnerabilities")))
       case (Some(a), Some(b)) => Some(a + b)
       case _ => None)
    case _ => None
  }

  lemma {:induction false} GatherAppend(one: ((string, Json)) -> Option<seq<Finding>>,
                                        a: seq<(string, Json)>, b: seq<(string, Json)>)
    ensures Gather(one, a + b) == match (Gather(one, a), Gather(one, b))
                                  case (Some(x), Some(y)) => Some(x + y)
                                  case _ => None
  {
    if a == [] {
      assert a + b == b;
      if Gather(one, b).Some? { assert [] + Gather(one, b).value == Gather(one, b).value; }
    } else {
      assert (a + b)[1..] == a[1..] + b;
      GatherAppend(one, a[1..], b);
      if one(a[0]).Some? && Gather(one, a[1..]).Some? && Gather(one, b).Some? {
        var x, y, z := one(a[0]).value, Gather(one, a[1..]).value, Gather(one, b).value;
        assert x + (y + z) == (x + y) + z;
      }
    }
  }

  lemma GatherOne(one: ((string, Json)) -> Option<seq<Finding>>, e: (string, Json))
    ensures Gather(one, [e]) == one(e)
  {
    assert [e][1..] == [];
    if one(e).Some? { assert one(e).value + [] == one(e).value; }
  }

  lemma GatherStep(one: ((string, Json)) -> Option<seq<Finding>>, entries: seq<(string, Json)>, i: nat)
    requires i < |entries|
    ensures Gather(one, entries[..i + 1]) == match (Gather(one, entries[..i]), one(entries[i]))
                                             case (Some(x), Some(y)) => Some(x + y)
                                             case _ => None
    ensures one(entries[i]) == None ==> Gather(one, entries) == None
  {
    assert entries[..i + 1] == entries[..i] + [entries[i]];
    GatherAppend(one, entries[..i], [entries[i]]);
    GatherOne(one, entries[i]);
    assert entries == entries[..i + 1] + entries[i + 1..];
    GatherAppend(one, entries[..i + 1], entries[i + 1..]);
  }

  lemma TruthyStep(read: Json -> Json, items: seq<Json>, i: nat)
    requires i < |items|
    ensures Map(read, items[..i + 1]) == Map(read, items[..i]) + [read(items[i])]
    ensures AllTruthy(Map(read, items[..i + 1])) ==
            AllTruthy(Map(read, items[..i])) + if Truthy(read(items[i])) then [read(items[i])] else []
  {
    FilterAppend((j: Json) => Truthy(j), Map(read, items[..i]), [read(items[i])]);
    assert [read(items[i])][1..] == [];
  }

  /** The loop over a `via` list: identifiers and titles of the objects and strings in it. */
  method ReadVia(items: seq<Json>) returns (advisories: seq<Json>, titles: seq<Json>)
    ensures AllTruthy(advisories) == UsableIds(items)
    ensures AllText(titles) == TitlesJoin(items)
  {
    advisories, titles := [], [];
    for i := 0 to |items|
      invariant AllTruthy(advisories) == UsableIds(items[..i])
      invariant AllText(titles) == TitlesJoin(items[..i])
    {
      var item := items[i];
      TruthyStep((j: Json) => ViaId(j), items, i);
      TruthyStep((j: Json) => ViaTitle(j), items, i);
      if item.Obj? || item.Text? {
        FilterAppend((j: Json) => Truthy(j), advisories, [ViaId(item)]);
        assert [ViaId(item)][1..] == [];
        advisories := advisories + [ViaId(item)];
        titles := titles + [ViaTitle(item)];
      } else {
        assert UsableIds(items[..i]) + [] == UsableIds(items[..i]);
      }
    }
    assert items[..|items|] == items;
  }

  /** One vulnerability: its titles are joined, then every usable identifier gives a tuple. */
  method ReadVuln(name: string, v: seq<(string, Json)>) returns (findings: Option<seq<Finding>>)
    ensures findings == VulnFindings(name, Obj(v))
  {
    var advisories, titles := ReadVia(ViaItems(v));
    if !AllText(titles) {
      return None;
    }
    var ids, out := AllTruthy(advisories), [];
    for k := 0 to |ids|
      invariant out == Tuples(name, Field(v, "severity"), ids)[..k]
    {
      out := out + [Finding(Text(name), Field(v, "severity"), ids[k])];
    }
    assert Tuples(name, Field(v, "severity"), ids)[..|ids|] == Tuples(name, Field(v, "severity"), ids);
    return Some(out);
  }

  /** The tuples of a report, in the order in which they are yielded. */
  method IterVulns(show: Json -> string, report: Json) returns (findings: Option<seq<Finding>>)
    ensures findings == Findings(show, report)
  {
    if !report.Obj? {
      return None;
    }
    var entries, out := Section(report.fields, "advisories"), [];
    for i := 0 to |entries|
      invariant Gather(FromAdvisory(show), entries[..i]) == Some(out)
    {
      GatherStep(FromAdvisory(show), entries, i);
      var own := AdvisoryFindings(show, entries[i].1);
      if own == None {
        return None;
      }
      out := out + own.value;
    }
    assert entries[..|entries|] == entries;
    var rest := ReadVulns(Section(report.fields, "vulnerabilities"));
    return if rest == None then None else Some(out + rest.value);
  }

  method ReadVulns(entries: seq<(string, Json)>) returns (findings: Option<seq<Finding>>)
    ensures findings == Gather(FromVuln(), entries)
  {
    var out := [];
    for i := 0 to |entries|
      invariant Gather(FromVuln(), entries[..i]) == Some(out)
    {
      GatherStep(FromVuln(), entries, i);
      if !entries[i].1.Obj? {
        return None;
      }
      var own := ReadVuln(entries[i].0, entries[i].1.fields);
      if own == None {
        return None;
      }
      out := out + own.value;
    }
    assert entries[..|entries|] == entries;
    return Some(out);
  }

  /** Taking one entry out of a section takes out exactly what it yields. */
  lemma GatherMiddle(one: ((string, Json)) -> Option<seq<Finding>>, before: seq<(string, Json)>, entry: (string, Json),
                     after: seq<(string, Json)>)
    requires Gather(one, before).Some? && Gather(one, after).Some? && one(entry).Some?
    ensures Gather(one, before + [entry] + after) ==
            Some(Gather(one, before).value + one(entry).value + Gather(one, after).value)
    ensures Gather(one, before + after) == Some(Gather(one, before).value + Gather(one, after).value)
  {
    GatherAppend(one, before + [entry], after);
    GatherAppend(one, before, [entry]);
    GatherAppend(one, before, after);
    GatherOne(one, entry);
  }

  lemma MiddleMatters<T>(x: seq<T>, own: seq<T>, y: seq<T>)
    ensures x + own + y == x + y <==> own == []
  {
    if own == [] {
      assert x + own + y == x + y;
    } else {
      assert |x + own + y| != |x + y|;
    }
  }

  /** A vulnerability, however severe, without a usable identifier leaves no finding: the report
      reads as if the entry were not there. With one, it leaves at least one finding. */
  lemma EntryVanishes(before: seq<(string, Json)>, name: string, v: seq<(string, Json)>, after: seq<(string, Json)>)
    requires Gather(FromVuln(), before).Some? && Gather(FromVuln(), after).Some? && TitlesJoin(ViaItems(v))
    ensures Gather(FromVuln(), before + [(name, Obj(v))] + after) == Gather(FromVuln(), before + after)
            <==> UsableIds(ViaItems(v)) == []
  {
    GatherMiddle(FromVuln(), before, (name, Obj(v)), after);
    MiddleMatters(Gather(FromVuln(), before).value, VulnFindings(name, Obj(v)).value, Gather(FromVuln(), after).value);
  }
}

/** The gate: an exception index, a deduplicating check, and one verdict. */
module AuditGate {
  import opened Prelude
  import opened AuditText
  import opened AuditParser
  import opened AuditReport

  /** What the gate asks of its surroundings: today's date and the library calls it makes. */
  datatype Env = Env(today: int, dateOf: string -> Option<int>, lower: string -> string, show: Json -> string)

  datatype Verdict = Pass | Fail | Raised

  type Key = (string, string)

  datatype Entry = Entry(severity: string, expires: int)

  // ---------- normalisation ----------

  function PyStr(env: Env, j: Json): string {
    if j.Text? then j.s else env.show(j)
  }

  /** None where the value is neither empty nor text, and strip raises. */
  function NormalizeSeverity(env: Env, j: Json): Option<string> {
    if !Truthy(j) then Some(env.lower([]))
    else if j.Text? then Some(env.lower(Strip(j.s)))
    else None
  }

  function NormalizePackage(env: Env, j: Json): string {
    if j == Null then [] else Strip(PyStr(env, j))
  }

  function NormalizeAdvisory(env: Env, j: Json): string {
    if j == Null then [] else env.lower(Strip(PyStr(env, j)))
  }

  predicate High(sev: string) { sev == "high" || sev == "critical" }

  // ---------- exceptions ----------

  function Value(r: Record, key: string): string {
    var v := Get(r, key);
    if v.Some? then v.value else []
  }

  predicate HasRequired(r: Record) {
    && Value(r, "package") != [] && Value(r, "advisory") != [] && Value(r, "severity") != []
    && Value(r, "mitigation") != [] && Value(r, "expires_on") != []
  }

  function ExceptionKey(env: Env, r: Record): Key {
    (Strip(Value(r, "package")), env.lower(Strip(Value(r, "advisory"))))
  }

  function ExceptionSeverity(env: Env, r: Record): string {
    env.lower(Strip(Value(r, "severity")))
  }

  /** All required fields, a readable date, and a package and advisory that are not blank. */
  predicate WellFormed(env: Env, r: Record) {
    && HasRequired(r) && env.dateOf(Value(r, "expires_on")).Some?
    && ExceptionKey(env, r).0 != [] && ExceptionKey(env, r).1 != []
  }

  function ExceptionKeys(env: Env, exceptions: seq<Record>): (ks: seq<Key>)
    ensures |ks| == |exceptions| && forall i :: 0 <= i < |ks| ==> ks[i] == ExceptionKey(env, exceptions[i])
  {
    Map((r: Record) => ExceptionKey(env, r), exceptions)
  }

  ghost predicate ExceptionsOk(env: Env, exceptions: seq<Record>) {
    (forall r :: r in exceptions ==> WellFormed(env, r)) && Distinct(ExceptionKeys(env, exceptions))
  }

  // ---------- findings ----------

  predicate Readable(env: Env, f: Finding) { NormalizeSeverity(env, f.severity).Some? }

  /** A named finding of high or critical severity. */
  predicate Relevant(env: Env, f: Finding) {
    Readable(env, f) && High(NormalizeSeverity(env, f.severity).value) && Truthy(f.name)
  }

  function FindingKey(env: Env, f: Finding): Key {
    (NormalizePackage(env, f.name), NormalizeAdvisory(env, f.advisory))
  }

  /** An exception for the finding's key that has not expired before today. */
  ghost predicate Excused(env: Env, exceptions: seq<Record>, f: Finding) {
    exists r :: r in exceptions && WellFormed(env, r) && ExceptionKey(env, r) == FindingKey(env, f)
                && env.today <= env.dateOf(Value(r, "expires_on")).value
  }

  /** No exception for the key disagrees on the severity; a blank severity agrees with any. */
  ghost predicate SeverityAgrees(env: Env, exceptions: seq<Record>, f: Finding)
    requires Readable(env, f)
  {
    forall r :: r in exceptions && ExceptionKey(env, r) == FindingKey(env, f) ==>
      ExceptionSeverity(env, r) == [] || ExceptionSeverity(env, r) == NormalizeSeverity(env, f.severity).value
  }

  /** No relevant finding in the list has the key of f. */
  ghost predicate NewKey(env: Env, before: seq<Finding>, f: Finding) {
    forall g :: g in before && Relevant(env, g) ==> FindingKey(env, g) != FindingKey(env, f)
  }

  /** If f comes after `before` and is the first of its key, its severity is compared, and agrees. */
  ghost predicate ComparedOk(env: Env, exceptions: seq<Record>, before: seq<Finding>, f: Finding) {
    Relevant(env, f) && NewKey(env, before, f) ==> SeverityAgrees(env, exceptions, f)
  }

  ghost predicate FirstsAgree(env: Env, exceptions: seq<Record>, findings: seq<Finding>) {
    forall j :: 0 <= j < |findings| ==> ComparedOk(env, exceptions, findings[..j], findings[j])
  }

  ghost predicate FindingOk(env: Env, exceptions: seq<Record>, f: Finding) {
    Relevant(env, f) ==> NormalizeAdvisory(env, f.advisory) != [] && Excused(env, exceptions, f)
  }

  /** The meaning of exit code 0. */
  ghost predicate Accepts(env: Env, exceptions: seq<Record>, findings: seq<Finding>) {
    && ExceptionsOk(env, exceptions)
    && (forall f :: f in findings ==> Readable(env, f) && FindingOk(env, exceptions, f))
    && FirstsAgree(env, exceptions, findings)
  }

  /** The check without deduplication: every finding is compared. */
  ghost predicate AcceptsEach(env: Env, exceptions: seq<Record>, findings: seq<Finding>) {
    && ExceptionsOk(env, exceptions)
    && forall f :: f in findings ==>
         Readable(env, f) && FindingOk(env, exceptions, f) && (Relevant(env, f) ==> SeverityAgrees(env, exceptions, f))
  }

  // ---------- the same, in the words of the exception file and the report ----------

  /** str(value). */
  ghost function Shown(env: Env, j: Json): string {
    match j
    case Text(s) => s
    case _ => env.show(j)
  }

  /** The exception names the finding: the same package but for outer blanks, the same advisory but
      for outer blanks and case; a missing value reads as the empty one. */
  ghost predicate Covers(env: Env, r: Record, f: Finding) {
    && Strip(Value(r, "package")) == (if f.name.Null? then "" else Strip(Shown(env, f.name)))
    && env.lower(Strip(Value(r, "advisory"))) == (if f.advisory.Null? then "" else env.lower(Strip(Shown(env, f.advisory))))
  }

  /** The same for two findings. */
  ghost predicate SameFinding(env: Env, f: Finding, g: Finding) {
    && (if f.name.Null? then "" else Strip(Shown(env, f.name))) == (if g.name.Null? then "" else Strip(Shown(env, g.name)))
    && (if f.advisory.Null? then "" else env.lower(Strip(Shown(env, f.advisory))))
       == (if g.advisory.Null? then "" else env.lower(Strip(Shown(env, g.advisory))))
  }

  /** The severity is text, or nothing at all. */
  ghost predicate HasSeverity(f: Finding) {
    f.severity.Text? || !Truthy(f.severity)
  }

  ghost function SeverityWord(env: Env, f: Finding): string {
    if f.severity.Text? then env.lower(Strip(f.severity.s)) else env.lower("")
  }

  /** A finding that needs an exception. */
  ghost predicate Serious(env: Env, f: Finding) {
    HasSeverity(f) && (SeverityWord(env, f) == "high" || SeverityWord(env, f) == "critical") && Truthy(f.name)
  }

  /** All five fields have a value, the date can be read, and package and advisory are not blank. */
  ghost predicate Complete(env: Env, r: Record) {
    && (forall field | field in ["package", "advisory", "severity", "mitigation", "expires_on"] :: Value(r, field) != "")
    && env.dateOf(Value(r, "expires_on")).Some?
    && Strip(Value(r, "package")) != "" && env.lower(Strip(Value(r, "advisory"))) != ""
  }

  ghost predicate SameException(env: Env, r: Record, other: Record) {
    && Strip(Value(r, "package")) == Strip(Value(other, "package"))
    && env.lower(Strip(Value(r, "advisory"))) == env.lower(Strip(Value(other, "advisory")))
  }

  ghost predicate Unexpired(env: Env, r: Record) {
    var date := env.dateOf(Value(r, "expires_on"));
    date.Some? && env.today <= date.value
  }

  ghost predicate Identified(env: Env, f: Finding) {
    !f.advisory.Null? && env.lower(Strip(Shown(env, f.advisory))) != ""
  }

  /** The severity of an exception that covers the finding is blank or the finding's own. */
  ghost predicate SeverityFits(env: Env, r: Record, f: Finding) {
    var word := env.lower(Strip(Value(r, "severity")));
    word == "" || word == SeverityWord(env, f)
  }

  /** No serious finding before the j-th is the same one. */
  ghost predicate IsFirst(env: Env, findings: seq<Finding>, j: nat)
    requires j < |findings|
  {
    forall i :: 0 <= i < j && Serious(env, findings[i]) ==> !SameFinding(env, findings[i], findings[j])
  }

  /** What exit code 0 means, without the normalisation the gate uses: complete exceptions for
      different findings; every serious finding has an identifier and an unexpired exception; and
      the first finding of its kind has no exception of another severity. */
  ghost predicate Admits(env: Env, exceptions: seq<Record>, findings: seq<Finding>) {
    && (forall r :: r in exceptions ==> Complete(env, r))
    && (forall i, j :: 0 <= i < j < |exceptions| ==> !SameException(env, exceptions[i], exceptions[j]))
    && (forall f :: f in findings ==> HasSeverity(f) && (Serious(env, f) ==> Allowed(env, exceptions, f)))
    && (forall j :: 0 <= j < |findings| && Serious(env, findings[j]) && IsFirst(env, findings, j) ==>
          AllFit(env, exceptions, findings[j]))
  }

  ghost predicate Allowed(env: Env, exceptions: seq<Record>, f: Finding) {
    Identified(env, f) && exists r :: r in exceptions && Covers(env, r, f) && Unexpired(env, r)
  }

  ghost predicate AllFit(env: Env, exceptions: seq<Record>, f: Finding) {
    forall r :: r in exceptions && Covers(env, r, f) ==> SeverityFits(env, r, f)
  }

  lemma KeysMean(env: Env, r: Record, f: Finding, g: Finding)
    ensures ExceptionKey(env, r) == FindingKey(env, f) <==> Covers(env, r, f)
    ensures FindingKey(env, f) == FindingKey(env, g) <==> SameFinding(env, f, g)
    ensures NormalizeAdvisory(env, f.advisory) != [] <==> Identified(env, f)
  {
  }

  lemma SeverityMeans(env: Env, f: Finding)
    ensures Readable(env, f) <==> HasSeverity(f)
    ensures Readable(env, f) ==> NormalizeSeverity(env, f.severity).value == SeverityWord(env, f)
    ensures Relevant(env, f) <==> Serious(env, f)
  {
  }

  lemma CompleteMeans(env: Env, r: Record)
    ensures WellFormed(env, r) <==> Complete(env, r)
  {
    var fields := ["package", "advisory", "severity", "mitigation", "expires_on"];
    assert fields[0] in fields && fields[1] in fields && fields[2] in fields && fields[3] in fields && fields[4] in fields;
  }

  lemma ExceptionsMean(env: Env, exceptions: seq<Record>)
    ensures ExceptionsOk(env, exceptions) <==>
            && (forall r :: r in exceptions ==> Complete(env, r))
            && (forall i, j :: 0 <= i < j < |exceptions| ==> !SameException(env, exceptions[i], exceptions[j]))
  {
    forall r { CompleteMeans(env, r); }
    var keys := ExceptionKeys(env, exceptions);
    forall i, j | 0 <= i < j < |exceptions| ensures keys[i] == keys[j] <==> SameException(env, exceptions[i], exceptions[j]) {}
  }

  lemma AllowedMeans(env: Env, exceptions: seq<Record>, f: Finding)
    requires forall r :: r in exceptions ==> WellFormed(env, r)
    ensures Serious(env, f) ==> (FindingOk(env, exceptions, f) <==> Allowed(env, exceptions, f))
    ensures Readable(env, f) ==> (SeverityAgrees(env, exceptions, f) <==> AllFit(env, exceptions, f))
  {
    SeverityMeans(env, f);
    forall r { KeysMean(env, r, f, f); }
  }

  lemma FirstsMean(env: Env, exceptions: seq<Record>, findings: seq<Finding>, j: nat)
    requires j < |findings| && forall r :: r in exceptions ==> WellFormed(env, r)
    ensures ComparedOk(env, exceptions, findings[..j], findings[j]) <==>
            (Serious(env, findings[j]) && IsFirst(env, findings, j) ==> AllFit(env, exceptions, findings[j]))
  {
    var before, f := findings[..j], findings[j];
    SeverityMeans(env, f);
    AllowedMeans(env, exceptions, f);
    if NewKey(env, before, f) {
      forall i | 0 <= i < j && Serious(env, findings[i]) ensures !SameFinding(env, findings[i], f) {
        assert before[i] in before;
        SeverityMeans(env, findings[i]);
        KeysMean(env, [], findings[i], f);
      }
    }
    if IsFirst(env, findings, j) {
      forall g | g in before && Relevant(env, g) ensures FindingKey(env, g) != FindingKey(env, f) {
        var i :| 0 <= i < j && before[i] == g;
        SeverityMeans(env, g);
        KeysMean(env, [], g, f);
        assert !SameFinding(env, findings[i], findings[j]);
      }
    }
  }

  lemma EachMeans(env: Env, exceptions: seq<Record>, f: Finding)
    requires forall r :: r in exceptions ==> WellFormed(env, r)
    ensures Readable(env, f) && FindingOk(env, exceptions, f) <==>
            HasSeverity(f) && (Serious(env, f) ==> Allowed(env, exceptions, f))
  {
    SeverityMeans(env, f);
    AllowedMeans(env, exceptions, f);
  }

  lemma AllFirstsMean(env: Env, exceptions: seq<Record>, findings: seq<Finding>)
    requires forall r :: r in exceptions ==> WellFormed(env, r)
    ensures FirstsAgree(env, exceptions, findings) <==>
            forall j :: 0 <= j < |findings| && Serious(env, findings[j]) && IsFirst(env, findings, j) ==>
              AllFit(env, exceptions, findings[j])
  {
    forall j | 0 <= j < |findings| { FirstsMean(env, exceptions, findings, j); }
  }

  /** The two readings are one. */
  lemma AdmitsMeansAccepts(env: Env, exceptions: seq<Record>, findings: seq<Finding>)
    ensures Accepts(env, exceptions, findings) <==> Admits(env, exceptions, findings)
  {
    ExceptionsMean(env, exceptions);
    if ExceptionsOk(env, exceptions) {
      forall f { EachMeans(env, exceptions, f); }
      AllFirstsMean(env, exceptions, findings);
    }
  }

  // ---------- the gate as it runs ----------

  function EntryOf(env: Env, r: Record): Entry
    requires WellFormed(env, r)
  {
    Entry(ExceptionSeverity(env, r), env.dateOf(Value(r, "expires_on")).value)
  }

  ghost predicate Listed(env: Env, r: Record, index: map<Key, Entry>) {
    WellFormed(env, r) && ExceptionKey(env, r) in index && index[ExceptionKey(env, r)] == EntryOf(env, r)
  }

  /** The index lists exactly the exceptions read so far. */
  ghost predicate Indexes(env: Env, exceptions: seq<Record>, index: map<Key, Entry>) {
    && (forall r :: r in exceptions ==> Listed(env, r, index))
    && (forall k :: k in index ==> exists r :: r in exceptions && ExceptionKey(env, r) == k)
  }

  /** Reads the exceptions into the index; an error for every one that is malformed or a duplicate. */
  method BuildIndex(env: Env, exceptions: seq<Record>) returns (errors: nat, index: map<Key, Entry>)
    ensures errors == 0 <==> ExceptionsOk(env, exceptions)
    ensures errors == 0 ==> Indexes(env, exceptions, index)
  {
    errors, index := 0, map[];
    for i := 0 to |exceptions|
      invariant errors == 0 <==> ExceptionsOk(env, exceptions[..i])
      invariant errors == 0 ==> Indexes(env, exceptions[..i], index)
    {
      var exc := exceptions[i];
      OkStep(env, exceptions, i);
      if !HasRequired(exc) {
        errors := errors + 1;
        continue;
      }
      var severity := ExceptionSeverity(env, exc);
      var key := ExceptionKey(env, exc);
      var date := env.dateOf(Value(exc, "expires_on"));
      if date == None {
        errors := errors + 1;
        continue;
      }
      if key.0 == [] || key.1 == [] {
        errors := errors + 1;
        continue;
      }
      if key in index {
        if errors == 0 { InIndex(env, exceptions[..i], index, key); }
        errors := errors + 1;
        continue;
      }
      if errors == 0 {
        NotInIndex(env, exceptions[..i], index, key);
        IndexStep(env, exceptions, i, index);
      }
      index := index[key := Entry(severity, date.value)];
    }
    assert exceptions[..|exceptions|] == exceptions;
  }

  lemma OkStep(env: Env, exceptions: seq<Record>, i: nat)
    requires i < |exceptions|
    ensures ExceptionsOk(env, exceptions[..i + 1]) <==>
            ExceptionsOk(env, exceptions[..i]) && WellFormed(env, exceptions[i])
            && ExceptionKey(env, exceptions[i]) !in ExceptionKeys(env, exceptions[..i])
  {
    var before, exc := exceptions[..i], exceptions[i];
    assert exceptions[..i + 1] == before + [exc];
    assert ExceptionKeys(env, before + [exc]) == ExceptionKeys(env, before) + [ExceptionKey(env, exc)];
    DistinctSnoc(ExceptionKeys(env, before), ExceptionKey(env, exc));
    assert forall r :: r in before + [exc] <==> r in before || r == exc;
  }

  lemma DistinctSnoc<T>(xs: seq<T>, x: T)
    ensures Distinct(xs + [x]) <==> Distinct(xs) && x !in xs
  {
    if Distinct(xs + [x]) {
      forall i, j | 0 <= i < j < |xs| ensures xs[i] != xs[j] { assert (xs + [x])[i] != (xs + [x])[j]; }
      forall i | 0 <= i < |xs| ensures xs[i] != x { assert (xs + [x])[i] != (xs + [x])[|xs|]; }
    }
  }

  lemma InIndex(env: Env, exceptions: seq<Record>, index: map<Key, Entry>, key: Key)
    requires Indexes(env, exceptions, index) && key in index
    ensures key in ExceptionKeys(env, exceptions)
  {
    var r :| r in exceptions && ExceptionKey(env, r) == key;
    var i :| 0 <= i < |exceptions| && exceptions[i] == r;
    assert ExceptionKeys(env, exceptions)[i] == key;
  }

  lemma NotInIndex(env: Env, exceptions: seq<Record>, index: map<Key, Entry>, key: Key)
    requires Indexes(env, exceptions, index) && key !in index
    ensures key !in ExceptionKeys(env, exceptions)
  {
    forall i | 0 <= i < |exceptions| ensures ExceptionKeys(env, exceptions)[i] != key {
      assert exceptions[i] in exceptions;
    }
  }

  lemma IndexStep(env: Env, exceptions: seq<Record>, i: nat, index: map<Key, Entry>)
    requires i < |exceptions| && WellFormed(env, exceptions[i])
    requires Indexes(env, exceptions[..i], index) && ExceptionKey(env, exceptions[i]) !in index
    ensures Indexes(env, exceptions[..i + 1], index[ExceptionKey(env, exceptions[i]) := EntryOf(env, exceptions[i])])
  {
    var before, exc := exceptions[..i], exceptions[i];
    assert exceptions[..i + 1] == before + [exc];
    IndexSnoc(env, before, exc, index);
  }

  lemma IndexSnoc(env: Env, before: seq<Record>, exc: Record, index: map<Key, Entry>)
    requires WellFormed(env, exc) && Indexes(env, before, index) && ExceptionKey(env, exc) !in index
    ensures Indexes(env, before + [exc], index[ExceptionKey(env, exc) := EntryOf(env, exc)])
  {
    var key := ExceptionKey(env, exc);
    var index' := index[key := EntryOf(env, exc)];
    forall r | r in before + [exc] ensures Listed(env, r, index') {
      if r in before { StillListed(env, r, index, key, EntryOf(env, exc)); }
    }
    forall k | k in index' ensures exists r :: r in before + [exc] && ExceptionKey(env, r) == k {
      if k == key {
        assert exc in before + [exc];
      } else {
        var r :| r in before && ExceptionKey(env, r) == k;
        assert r in before + [exc];
      }
    }
  }

  lemma StillListed(env: Env, r: Record, index: map<Key, Entry>, key: Key, entry: Entry)
    requires Listed(env, r, index) && key !in index
    ensures Listed(env, r, index[key := entry])
  {
  }

  // ---------- the deduplicating check ----------

  /** What the index says about a key is what the exceptions say. */
  lemma IndexDecides(env: Env, exceptions: seq<Record>, index: map<Key, Entry>, f: Finding)
    requires Indexes(env, exceptions, index)
    ensures Excused(env, exceptions, f) <==>
            FindingKey(env, f) in index && env.today <= index[FindingKey(env, f)].expires
    ensures Readable(env, f) && FindingKey(env, f) in index ==>
              (SeverityAgrees(env, exceptions, f) <==>
               EntryAgrees(index[FindingKey(env, f)], NormalizeSeverity(env, f.severity).value))
  {
    var key := FindingKey(env, f);
    forall r | r in exceptions ensures Listed(env, r, index) {}
    if key in index {
      var r :| r in exceptions && ExceptionKey(env, r) == key;
      assert Listed(env, r, index);
    }
  }

  /** A blank severity agrees with any. */
  predicate EntryAgrees(entry: Entry, severity: string) {
    entry.severity == [] || entry.severity == severity
  }

  /** The keys already looked up. */
  ghost predicate SeenKeys(env: Env, findings: seq<Finding>, seen: set<Key>) {
    forall k :: k in seen <==>
      exists f :: f in findings && Relevant(env, f) && k == FindingKey(env, f) && k.1 != []
  }

  lemma SeenSnoc(env: Env, before: seq<Finding>, f: Finding, seen: set<Key>)
    requires SeenKeys(env, before, seen)
    ensures var add := Relevant(env, f) && FindingKey(env, f).1 != [];
            SeenKeys(env, before + [f], if add then seen + {FindingKey(env, f)} else seen)
  {
    assert forall g :: g in before + [f] <==> g in before || g == f;
  }

  lemma FirstsAgreeStep(env: Env, exceptions: seq<Record>, before: seq<Finding>, f: Finding)
    ensures FirstsAgree(env, exceptions, before + [f]) <==>
            FirstsAgree(env, exceptions, before) && ComparedOk(env, exceptions, before, f)
  {
    var upto := before + [f];
    assert upto[..|before|] == before && upto[|before|] == f;
    forall j | 0 <= j < |before| ensures upto[..j] == before[..j] && upto[j] == before[j] {}
  }

  lemma AcceptsStep(env: Env, exceptions: seq<Record>, before: seq<Finding>, f: Finding)
    ensures Accepts(env, exceptions, before + [f]) <==>
            Accepts(env, exceptions, before) && Readable(env, f)
            && FindingOk(env, exceptions, f) && ComparedOk(env, exceptions, before, f)
  {
    FirstsAgreeStep(env, exceptions, before, f);
    assert forall g :: g in before + [f] <==> g in before || g == f;
  }

  /** A finding whose key was seen adds nothing. */
  lemma SeenAddsNothing(env: Env, exceptions: seq<Record>, before: seq<Finding>, f: Finding, seen: set<Key>)
    requires SeenKeys(env, before, seen) && FindingKey(env, f) in seen
    ensures ComparedOk(env, exceptions, before, f)
    ensures Accepts(env, exceptions, before) ==> FindingOk(env, exceptions, f)
  {
    var g :| g in before && Relevant(env, g) && FindingKey(env, f) == FindingKey(env, g) && FindingKey(env, f).1 != [];
    if Accepts(env, exceptions, before) { assert FindingOk(env, exceptions, g); }
  }

  lemma UnseenIsNew(env: Env, before: seq<Finding>, f: Finding, seen: set<Key>)
    requires SeenKeys(env, before, seen) && FindingKey(env, f) !in seen && FindingKey(env, f).1 != []
    ensures NewKey(env, before, f)
  {
  }

  /** What the loop knows after some findings: they can all be read, their keys are noted, and
      nothing was counted exactly when they would be accepted. */
  ghost predicate CheckedUpTo(env: Env, exceptions: seq<Record>, findings: seq<Finding>, clean: bool, seen: set<Key>) {
    && (forall f :: f in findings ==> Readable(env, f)) && SeenKeys(env, findings, seen)
    && (clean <==> Accepts(env, exceptions, findings))
  }

  /** What one finding is counted as. */
  datatype Count = Nothing | Unnamed | Missing | Known(severityOk: bool, expired: bool)

  function Problem(c: Count): bool {
    match c
    case Nothing => false
    case Unnamed | Missing => true
    case Known(severityOk, expired) => !severityOk || expired
  }

  /** One round of the loop; None where reading the severity raises. */
  method CheckOne(env: Env, ghost exceptions: seq<Record>, index: map<Key, Entry>, ghost indexed: bool, ghost before: seq<Finding>,
                  f: Finding, ghost clean: bool, seen: set<Key>) returns (count: Option<Count>, seen': set<Key>)
    requires indexed ==> Indexes(env, exceptions, index)
    requires indexed <==> ExceptionsOk(env, exceptions)
    requires CheckedUpTo(env, exceptions, before, clean, seen) && (clean ==> indexed)
    ensures count == None <==> !Readable(env, f)
    ensures count.Some? ==> CheckedUpTo(env, exceptions, before + [f], clean && !Problem(count.value), seen')
  {
    seen' := seen;
    AcceptsStep(env, exceptions, before, f);
    SeenSnoc(env, before, f, seen);
    var sev := NormalizeSeverity(env, f.severity);
    if sev == None {
      return None, seen;
    }
    if !High(sev.value) || !Truthy(f.name) {
      return Some(Nothing), seen;
    }
    var advisoryKey := NormalizeAdvisory(env, f.advisory);
    if advisoryKey == [] {
      return Some(Unnamed), seen;
    }
    var key := (NormalizePackage(env, f.name), advisoryKey);
    if key in seen {
      SeenAddsNothing(env, exceptions, before, f, seen);
      assert seen + {key} == seen;
      return Some(Nothing), seen;
    }
    UnseenIsNew(env, before, f, seen);
    count, seen' := Some(LookUp(env, index, key, sev.value)), seen + {key};
    if indexed { LookUpDecides(env, exceptions, index, f); }
  }

  /** A key that is looked up for the first time. */
  function LookUp(env: Env, index: map<Key, Entry>, key: Key, severity: string): Count {
    if key !in index then Missing
    else Known(EntryAgrees(index[key], severity), index[key].expires < env.today)
  }

  lemma LookUpDecides(env: Env, exceptions: seq<Record>, index: map<Key, Entry>, f: Finding)
    requires Indexes(env, exceptions, index) && Relevant(env, f) && NormalizeAdvisory(env, f.advisory) != []
    ensures !Problem(LookUp(env, index, FindingKey(env, f), NormalizeSeverity(env, f.severity).value)) <==>
            FindingOk(env, exceptions, f) && SeverityAgrees(env, exceptions, f)
  {
    IndexDecides(env, exceptions, index, f);
    OkIfExcused(env, exceptions, f);
    CountDecides(env, index, FindingKey(env, f), NormalizeSeverity(env, f.severity).value,
                 Excused(env, exceptions, f), SeverityAgrees(env, exceptions, f));
  }

  /** A problem is counted unless an unexpired exception is found and agrees. */
  lemma CountDecides(env: Env, index: map<Key, Entry>, key: Key, severity: string, excused: bool, agrees: bool)
    requires excused <==> key in index && env.today <= index[key].expires
    requires key in index ==> (agrees <==> EntryAgrees(index[key], severity))
    ensures !Problem(LookUp(env, index, key, severity)) <==> excused && agrees
  {
  }

  lemma OkIfExcused(env: Env, exceptions: seq<Record>, f: Finding)
    requires Relevant(env, f) && NormalizeAdvisory(env, f.advisory) != []
    ensures FindingOk(env, exceptions, f) <==> Excused(env, exceptions, f)
  {
  }

  method AddUp(count: Count, errors: nat, missing: nat, expired: nat) returns (errors': nat, missing': nat, expired': nat)
    ensures errors' + missing' + expired' == 0 <==> errors + missing + expired == 0 && !Problem(count)
  {
    errors', missing', expired' := errors, missing, expired;
    match count
    case Nothing =>
    case Unnamed => errors' := errors + 1;
    case Missing => missing' := missing + 1;
    case Known(severityOk, isExpired) =>
      if !severityOk {
        errors' := errors + 1;
      }
      if isExpired {
        expired' := expired + 1;
      }
  }

  /** The gate passes exactly when the declarative reading accepts; it raises exactly when some
      severity is neither empty nor text. */
  method Check(env: Env, exceptions: seq<Record>, findings: seq<Finding>) returns (v: Verdict)
    ensures v == Pass <==> Accepts(env, exceptions, findings)
    ensures v == Pass <==> Admits(env, exceptions, findings)
    ensures v == Raised <==> exists f :: f in findings && !HasSeverity(f)
  {
    v := CheckAll(env, exceptions, findings);
    AdmitsMeansAccepts(env, exceptions, findings);
    forall f { SeverityMeans(env, f); }
  }

  method CheckAll(env: Env, exceptions: seq<Record>, findings: seq<Finding>) returns (v: Verdict)
    ensures v == Pass <==> Accepts(env, exceptions, findings)
    ensures v == Raised <==> exists f :: f in findings && !Readable(env, f)
  {
    var errors, index := BuildIndex(env, exceptions);
    ghost var indexed := errors == 0;
    var missing, expired := 0, 0;
    var seen: set<Key> := {};
    for j := 0 to |findings|
      invariant errors + missing + expired == 0 ==> indexed
      invariant CheckedUpTo(env, exceptions, findings[..j], errors + missing + expired == 0, seen)
    {
      assert findings[..j + 1] == findings[..j] + [findings[j]];
      var count;
      count, seen := CheckOne(env, exceptions, index, indexed, findings[..j], findings[j], errors + missing + expired == 0, seen);
      if count == None {
        assert findings[j] in findings;
        return Raised;
      }
      errors, missing, expired := AddUp(count.value, errors, missing, expired);
    }
    assert findings[..|findings|] == findings;
    return if errors + missing + expired > 0 then Fail else Pass;
  }

  /** The whole run, from the text of the exception file and the audit report. */
  method Audit(env: Env, report: Json, text: string) returns (v: Verdict)
    ensures v == Raised <==> ParseText(text) == None || Findings(env.show, report) == None
                             || exists f :: f in Findings(env.show, report).value && !HasSeverity(f)
    ensures v == Pass <==> ParseText(text).Some? && Findings(env.show, report).Some?
                           && Admits(env, ParseText(text).value, Findings(env.show, report).value)
  {
    var exceptions := ParseExceptions(Lines(text));
    if exceptions == None {
      return Raised;
    }
    var findings := IterVulns(env.show, report);
    if findings == None {
      return Raised;
    }
    v := Check(env, exceptions.value, findings.value);
  }

  // ---------- what deduplication changes ----------

  /** No key occurs with two severities among the high and critical findings. */
  ghost predicate Consistent(env: Env, findings: seq<Finding>) {
    forall f, g :: f in findings && g in findings && Relevant(env, f) && Relevant(env, g)
                   && FindingKey(env, f) == FindingKey(env, g) ==>
                     NormalizeSeverity(env, f.severity) == NormalizeSeverity(env, g.severity)
  }

  /** The first finding with the key of the j-th. */
  lemma {:induction false} FirstExists(env: Env, findings: seq<Finding>, j: nat) returns (i: nat)
    requires j < |findings| && Relevant(env, findings[j])
    ensures i <= j && Relevant(env, findings[i]) && NewKey(env, findings[..i], findings[i])
    ensures FindingKey(env, findings[i]) == FindingKey(env, findings[j])
    decreases j
  {
    if k :| 0 <= k < j && Relevant(env, findings[k]) && FindingKey(env, findings[k]) == FindingKey(env, findings[j]) {
      i := FirstExists(env, findings, k);
    } else {
      i := j;
    }
  }

  /** On consistent findings the deduplicated loop decides what checking every finding decides. */
  lemma DedupRefines(env: Env, exceptions: seq<Record>, findings: seq<Finding>)
    requires Consistent(env, findings)
    ensures Accepts(env, exceptions, findings) <==> AcceptsEach(env, exceptions, findings)
  {
    if Accepts(env, exceptions, findings) {
      forall f | f in findings && Relevant(env, f) ensures SeverityAgrees(env, exceptions, f) {
        var j :| 0 <= j < |findings| && findings[j] == f;
        var i := FirstExists(env, findings, j);
        assert findings[i] in findings;
        assert ComparedOk(env, exceptions, findings[..i], findings[i]);
      }
    }
  }

  /** The j-th finding is not the first of its key, and a first that agreed hides that it does not. */
  ghost predicate Hidden(env: Env, exceptions: seq<Record>, findings: seq<Finding>, i: nat, j: nat)
    requires i < j < |findings|
  {
    && Relevant(env, findings[i]) && Relevant(env, findings[j]) && FindingKey(env, findings[i]) == FindingKey(env, findings[j])
    && NewKey(env, findings[..i], findings[i])
    && SeverityAgrees(env, exceptions, findings[i]) && !SeverityAgrees(env, exceptions, findings[j])
  }

  ghost predicate SomeHidden(env: Env, exceptions: seq<Record>, findings: seq<Finding>) {
    exists i, j :: 0 <= i < j < |findings| && Hidden(env, exceptions, findings, i, j)
  }

  lemma FirstHides(env: Env, exceptions: seq<Record>, findings: seq<Finding>, f: Finding)
    requires FirstsAgree(env, exceptions, findings)
    requires f in findings && Relevant(env, f) && !SeverityAgrees(env, exceptions, f)
    ensures SomeHidden(env, exceptions, findings)
  {
    var j :| 0 <= j < |findings| && findings[j] == f;
    var i := FirstExists(env, findings, j);
    assert ComparedOk(env, exceptions, findings[..i], findings[i]);
    assert Hidden(env, exceptions, findings, i, j);
  }

  lemma HiddenIsRefused(env: Env, exceptions: seq<Record>, findings: seq<Finding>)
    requires SomeHidden(env, exceptions, findings)
    ensures !AcceptsEach(env, exceptions, findings)
  {
    var i, j :| 0 <= i < j < |findings| && Hidden(env, exceptions, findings, i, j);
    assert findings[j] in findings;
  }

  lemma EachIsEnough(env: Env, exceptions: seq<Record>, findings: seq<Finding>)
    requires AcceptsEach(env, exceptions, findings)
    ensures Accepts(env, exceptions, findings)
  {
  }

  /** Exactly when the deduplicated loop lets through what the plain check refuses: a finding that is
      not the first of its key disagrees on the severity, and the first does not. The plain check
      never lets through more. */
  lemma DedupHidesExactly(env: Env, exceptions: seq<Record>, findings: seq<Finding>)
    ensures AcceptsEach(env, exceptions, findings) <==>
            Accepts(env, exceptions, findings) && !SomeHidden(env, exceptions, findings)
  {
    if AcceptsEach(env, exceptions, findings) {
      EachIsEnough(env, exceptions, findings);
      if SomeHidden(env, exceptions, findings) { HiddenIsRefused(env, exceptions, findings); }
    } else if Accepts(env, exceptions, findings) {
      var f :| f in findings && Relevant(env, f) && !SeverityAgrees(env, exceptions, f);
      FirstHides(env, exceptions, findings, f);
    }
  }

  lemma PermutationMembers<T>(xs: seq<T>, ys: seq<T>)
    requires multiset(xs) == multiset(ys)
    ensures forall x :: x in xs <==> x in ys
  {
    forall x ensures x in xs <==> x in ys {
      assert x in xs <==> x in multiset(xs);
      assert x in ys <==> x in multiset(ys);
    }
  }

  /** On consistent findings the verdict does not depend on their order. */
  lemma OrderIrrelevant(env: Env, exceptions: seq<Record>, findings: seq<Finding>, other: seq<Finding>)
    requires Consistent(env, findings) && multiset(findings) == multiset(other)
    ensures Accepts(env, exceptions, findings) <==> Accepts(env, exceptions, other)
  {
    PermutationMembers(findings, other);
    DedupRefines(env, exceptions, findings);
    DedupRefines(env, exceptions, other);
  }

  /** Moving one finding to the front is a reordering under which its severity is compared. */
  lemma MovedToFront(env: Env, exceptions: seq<Record>, findings: seq<Finding>, f: Finding) returns (other: seq<Finding>)
    requires f in findings && Relevant(env, f)
    ensures multiset(other) == multiset(findings)
    ensures FirstsAgree(env, exceptions, other) ==> SeverityAgrees(env, exceptions, f)
  {
    var j :| 0 <= j < |findings| && findings[j] == f;
    other := [f] + findings[..j] + findings[j + 1..];
    assert findings == findings[..j] + [f] + findings[j + 1..];
    assert other[0] == f && other[..0] == [];
    assert NewKey(env, other[..0], f);
    if FirstsAgree(env, exceptions, other) { assert ComparedOk(env, exceptions, other[..0], other[0]); }
  }

  /** Without consistency: every finding passes the plain check exactly when the deduplicated
      loop accepts the findings in whatever order they come. */
  lemma EachMeansEveryOrder(env: Env, exceptions: seq<Record>, findings: seq<Finding>)
    ensures AcceptsEach(env, exceptions, findings) <==>
            forall other: seq<Finding> :: multiset(other) == multiset(findings) ==> Accepts(env, exceptions, other)
  {
    if AcceptsEach(env, exceptions, findings) {
      forall other: seq<Finding> | multiset(other) == multiset(findings) ensures Accepts(env, exceptions, other) {
        PermutationMembers(findings, other);
      }
    }
    if forall other: seq<Finding> :: multiset(other) == multiset(findings) ==> Accepts(env, exceptions, other) {
      assert Accepts(env, exceptions, findings);
      forall f | f in findings && Relevant(env, f) ensures SeverityAgrees(env, exceptions, f) {
        var other := MovedToFront(env, exceptions, findings, f);
        assert Accepts(env, exceptions, other);
      }
    }
  }

  /** Two findings with one key and two severities, one of which the exception names: the order
      decides. */
  lemma OrderDecides(env: Env, exceptions: seq<Record>, f: Finding, g: Finding)
    requires ExceptionsOk(env, exceptions) && Relevant(env, f) && Relevant(env, g)
    requires FindingKey(env, f) == FindingKey(env, g) && FindingOk(env, exceptions, f)
    requires SeverityAgrees(env, exceptions, f) && !SeverityAgrees(env, exceptions, g)
    ensures Accepts(env, exceptions, [f, g]) && !Accepts(env, exceptions, [g, f])
  {
    assert [f] == [] + [f] && [g] == [] + [g] && [f, g] == [f] + [g] && [g, f] == [g] + [f];
    AcceptsStep(env, exceptions, [], f);
    AcceptsStep(env, exceptions, [f], g);
    AcceptsStep(env, exceptions, [], g);
    AcceptsStep(env, exceptions, [g], f);
    assert f in [f];
  }

  /** One exception, for a high finding of package p with identifier a. */
  function Sample(): Record {
    [("package", "p"), ("advisory", "a"), ("severity", "high"), ("mitigation", "m"), ("expires_on", "d")]
  }

  lemma SampleFields()
    ensures Value(Sample(), "package") == "p" && Value(Sample(), "advisory") == "a"
    ensures Value(Sample(), "severity") == "high" && HasRequired(Sample())
  {
    var r := Sample();
    assert "package"[0] == 'p' && "advisory"[0] == 'a' && "severity"[0] == 's' && "mitigation"[0] == 'm' && "expires_on"[0] == 'e';
    forall key ensures
      && Get(r, key) == (if key == "package" then Some("p") else Get(r[1..], key))
      && Get(r[1..], key) == (if key == "advisory" then Some("a") else Get(r[2..], key))
      && Get(r[2..], key) == (if key == "severity" then Some("high") else Get(r[3..], key))
      && Get(r[3..], key) == (if key == "mitigation" then Some("m") else Get(r[4..], key))
      && Get(r[4..], key) == (if key == "expires_on" then Some("d") else None)
    {
      assert r[1..][1..] == r[2..] && r[2..][1..] == r[3..] && r[3..][1..] == r[4..] && r[4..][1..] == [];
    }
  }

  function SampleEnv(): Env { Env(0, _ => Some(0), s => s, _ => []) }

  function SampleFinding(severity: string): Finding { Finding(Text("p"), Text(severity), Text("a")) }

  lemma SampleKeys(severity: string)
    requires Trimmed(severity) && severity != []
    ensures WellFormed(SampleEnv(), Sample()) && ExceptionKey(SampleEnv(), Sample()) == ("p", "a")
    ensures ExceptionSeverity(SampleEnv(), Sample()) == "high"
    ensures FindingKey(SampleEnv(), SampleFinding(severity)) == ("p", "a")
    ensures NormalizeSeverity(SampleEnv(), Text(severity)) == Some(severity)
  {
    SampleFields();
    StripTrims("p");
    StripTrims("a");
    StripTrims("high");
    StripTrims(severity);
  }

  /** A report on which the order decides: one exception for a high finding, reported once as
      high and once as critical. */
  lemma OrderCanDecide()
    ensures var env, high, critical := SampleEnv(), SampleFinding("high"), SampleFinding("critical");
            Accepts(env, [Sample()], [high, critical]) && !Accepts(env, [Sample()], [critical, high])
  {
    SampleKeys("high");
    SampleKeys("critical");
    assert Sample() in [Sample()];
    assert "high"[0] == 'h' && "critical"[0] == 'c';
    OrderDecides(SampleEnv(), [Sample()], SampleFinding("high"), SampleFinding("critical"));
  }
}
