/** Topic names: the parser and the canonical name it prints (internal/topic/topic.go). */
module TopicNames {
  import opened Basics

  const PERSISTENT: string := "persistent"
  const NON_PERSISTENT: string := "non-persistent"
  const MARK: string := "://"

  datatype Info = Info(persistent: bool, tenant: string, namespace: string, name: string, fullName: string)

  /** The three columns the topic tables are keyed by. */
  datatype TopicName = TopicName(tenant: string, namespace: string, name: string)

  datatype ParseError = EmptyTopic | UnsupportedScheme | InvalidTopic

  predicate OccursAt(s: string, pat: string, i: nat) {
    i + |pat| <= |s| && s[i..i + |pat|] == pat
  }

  /** strings.Index: the first position at which pat occurs. */
  function Index(s: string, pat: string): (r: Option<nat>)
    requires pat != []
    ensures r.Some? ==> OccursAt(s, pat, r.value) && forall j: nat | j < r.value :: !OccursAt(s, pat, j)
    ensures r.None? ==> forall j: nat :: !OccursAt(s, pat, j)
  {
    if OccursAt(s, pat, 0) then Some(0)
    else if s == [] then None
    else
      var r := Index(s[1..], pat);
      ShiftOccurrences(s, pat);
      if r.Some? then Some(r.value + 1) else None
  }

  lemma ShiftOccurrences(s: string, pat: string)
    requires s != []
    ensures forall j: nat | j > 0 :: OccursAt(s, pat, j) <==> OccursAt(s[1..], pat, j - 1)
  {
    forall j: nat | j > 0
      ensures OccursAt(s, pat, j) <==> OccursAt(s[1..], pat, j - 1)
    {
      if j + |pat| <= |s| {
        assert s[1..][j - 1..j - 1 + |pat|] == s[j..j + |pat|];
      }
    }
  }

  /** strings.SplitN for a positive n. */
  function SplitN(s: string, sep: string, n: nat): (parts: seq<string>)
    requires sep != [] && n > 0
    ensures 1 <= |parts| <= n
    decreases n
  {
    match Index(s, sep)
    case Some(i) => if n == 1 then [s] else [s[..i]] + SplitN(s[i + |sep|..], sep, n - 1)
    case None => [s]
  }

  predicate Contains(s: string, pat: string)
    requires pat != []
  {
    Index(s, pat).Some?
  }

  function FullName(scheme: string, tenant: string, namespace: string, name: string): string {
    scheme + MARK + (tenant + "/" + (namespace + "/" + name))
  }

  function Parse(raw: string): Result<Info, ParseError> {
    if raw == "" then Failure(EmptyTopic)
    else
      var qualified := Contains(raw, MARK);
      var halves := SplitN(raw, MARK, 2);
      var scheme := if qualified then halves[0] else PERSISTENT;
      var rest := if qualified && |halves| == 2 then halves[1] else raw;
      if scheme != PERSISTENT && scheme != NON_PERSISTENT then Failure(UnsupportedScheme)
      else if rest == "" then Failure(InvalidTopic)
      else
        var parts := SplitN(rest, "/", 3);
        if |parts| != 3 && qualified then Failure(InvalidTopic)
        else
          var tenant := if |parts| == 3 then parts[0] else "public";
          var namespace := if |parts| == 3 then parts[1] else "default";
          var name := if |parts| == 3 then parts[2] else rest;
          if tenant == "" || namespace == "" || name == "" then Failure(InvalidTopic)
          else Success(Info(scheme == PERSISTENT, tenant, namespace, name, FullName(scheme, tenant, namespace, name)))
  }

  function Key(info: Info): TopicName {
    TopicName(info.tenant, info.namespace, info.name)
  }

  // ---------- splitting what FullName joins ----------

  lemma IndexIs(s: string, pat: string, i: nat)
    requires pat != []
    requires OccursAt(s, pat, i) && forall j: nat | j < i :: !OccursAt(s, pat, j)
    ensures Index(s, pat) == Some(i)
  {
  }

  lemma SlashIndex(a: string, b: string)
    requires '/' !in a
    ensures Index(a + "/" + b, "/") == Some(|a|)
  {
    var s := a + "/" + b;
    assert s[|a|] == '/';
    assert s[|a|..|a| + 1] == "/";
    forall j: nat | j < |a| ensures !OccursAt(s, "/", j) {
      assert s[j..j + 1][0] == a[j];
    }
    IndexIs(s, "/", |a|);
  }

  lemma NoSlashBeforeFirst(s: string, i: nat)
    requires Index(s, "/") == Some(i)
    ensures '/' !in s[..i]
  {
    forall j | 0 <= j < i ensures s[j] != '/' {
      if s[j] == '/' { assert s[j..j + 1] == "/"; assert OccursAt(s, "/", j); }
    }
  }

  lemma SplitJoined(tenant: string, namespace: string, name: string)
    requires '/' !in tenant && '/' !in namespace
    ensures SplitN(tenant + "/" + (namespace + "/" + name), "/", 3) == [tenant, namespace, name]
  {
    var tail := namespace + "/" + name;
    var s := tenant + "/" + tail;
    SlashIndex(tenant, tail);
    assert s[..|tenant|] == tenant && s[|tenant| + 1..] == tail;
    SlashIndex(namespace, name);
    assert tail[..|namespace|] == namespace && tail[|namespace| + 1..] == name;
    assert SplitN(name, "/", 1) == [name];
    assert SplitN(tail, "/", 2) == [namespace] + [name];
  }

  lemma SplitHasNoSlash(rest: string)
    requires |SplitN(rest, "/", 3)| == 3
    ensures var p := SplitN(rest, "/", 3); '/' !in p[0] && '/' !in p[1]
  {
    var i := Index(rest, "/").value;
    NoSlashBeforeFirst(rest, i);
    var tail := rest[i + 1..];
    assert SplitN(rest, "/", 3) == [rest[..i]] + SplitN(tail, "/", 2);
    assert |SplitN(tail, "/", 2)| == 2;
    var k := Index(tail, "/").value;
    NoSlashBeforeFirst(tail, k);
    assert SplitN(tail, "/", 2) == [tail[..k]] + SplitN(tail[k + 1..], "/", 1);
  }

  /** What the parser accepts is stored in canonical parts. */
  lemma ParsedParts(raw: string)
    requires Parse(raw).Success?
    ensures var i := Parse(raw).value;
            && '/' !in i.tenant && '/' !in i.namespace
            && i.tenant != "" && i.namespace != "" && i.name != ""
            && i.fullName
                 == FullName(if i.persistent then PERSISTENT else NON_PERSISTENT, i.tenant, i.namespace, i.name)
  {
    var qualified := Contains(raw, MARK);
    var halves := SplitN(raw, MARK, 2);
    var rest := if qualified && |halves| == 2 then halves[1] else raw;
    if |SplitN(rest, "/", 3)| == 3 { SplitHasNoSlash(rest); }
  }

  // ---------- what the parser makes of every string ----------

  predicate MarkAt(s: string, i: nat) {
    i + 2 < |s| && s[i] == ':' && s[i + 1] == '/' && s[i + 2] == '/'
  }

  lemma MarkOccurs(s: string, i: nat)
    ensures MarkAt(s, i) <==> OccursAt(s, MARK, i)
  {
    if i + 3 <= |s| {
      var w := s[i..i + 3];
      assert w[0] == s[i] && w[1] == s[i + 1] && w[2] == s[i + 2];
    }
  }

  ghost predicate Marked(s: string) {
    exists i: nat :: MarkAt(s, i)
  }

  ghost predicate TwoSlashes(s: string) {
    exists i, j :: 0 <= i < j < |s| && s[i] == '/' && s[j] == '/'
  }

  lemma MarkedContains(s: string)
    ensures Contains(s, MARK) <==> Marked(s)
  {
    forall i: nat ensures MarkAt(s, i) <==> OccursAt(s, MARK, i) { MarkOccurs(s, i); }
  }

  lemma NoSlashNoIndex(s: string)
    ensures Index(s, "/").None? <==> '/' !in s
  {
    if j :| 0 <= j < |s| && s[j] == '/' {
      assert s[j..j + 1] == "/";
      assert OccursAt(s, "/", j);
    }
    if Index(s, "/").Some? {
      var i := Index(s, "/").value;
      assert s[i] == s[i..i + 1][0] == '/';
    }
  }

  lemma SplitsInThree(s: string)
    ensures |SplitN(s, "/", 3)| == 3 <==> TwoSlashes(s)
  {
    NoSlashNoIndex(s);
    if Index(s, "/").Some? {
      var i := Index(s, "/").value;
      var tail := s[i + 1..];
      NoSlashBeforeFirst(s, i);
      NoSlashNoIndex(tail);
      assert s[i] == s[i..i + 1][0] == '/';
      assert SplitN(s, "/", 3) == [s[..i]] + SplitN(tail, "/", 2);
      if j :| 0 <= j < |tail| && tail[j] == '/' { assert s[i + 1 + j] == '/'; }
      if a, b :| 0 <= a < b < |s| && s[a] == '/' && s[b] == '/' {
        assert tail[b - i - 1] == '/';
      }
    }
  }

  /** A name alone is one of the public tenant's default namespace. */
  lemma ParseShort(raw: string)
    requires raw != "" && !Marked(raw) && !TwoSlashes(raw)
    ensures Parse(raw) == Success(Info(true, "public", "default", raw, "persistent://public/default/" + raw))
  {
    MarkedContains(raw);
    SplitsInThree(raw);
    assert FullName(PERSISTENT, "public", "default", raw) == "persistent://public/default/" + raw;
  }

  /** Without a scheme the first two slashes separate the parts, none of which may be empty. */
  lemma ParseTriple(tenant: string, namespace: string, name: string)
    requires '/' !in tenant && '/' !in namespace && !Marked(tenant + "/" + namespace + "/" + name)
    ensures var raw := tenant + "/" + namespace + "/" + name;
      Parse(raw) == if tenant == "" || namespace == "" || name == "" then Failure(InvalidTopic)
                    else Success(Info(true, tenant, namespace, name, "persistent://" + raw))
  {
    var raw := tenant + "/" + namespace + "/" + name;
    assert raw == tenant + "/" + (namespace + "/" + name);
    MarkedContains(raw);
    SplitJoined(tenant, namespace, name);
    hide SplitN, Contains;
    assert FullName(PERSISTENT, tenant, namespace, name) == "persistent://" + raw;
  }

  /** The scheme ends at the first mark. */
  ghost predicate EndsAtFirstMark(scheme: string, rest: string) {
    forall j: nat | j < |scheme| :: !MarkAt(scheme + "://" + rest, j)
  }

  lemma FirstMarkSplits(scheme: string, rest: string)
    requires EndsAtFirstMark(scheme, rest)
    ensures Contains(scheme + MARK + rest, MARK) && SplitN(scheme + MARK + rest, MARK, 2) == [scheme, rest]
  {
    var s := scheme + MARK + rest;
    assert s[|scheme|..|scheme| + 3] == MARK;
    forall j: nat | j < |scheme| ensures !OccursAt(s, MARK, j) { MarkOccurs(s, j); }
    IndexIs(s, MARK, |scheme|);
    assert s[..|scheme|] == scheme && s[|scheme| + 3..] == rest;
    assert SplitN(rest, MARK, 1) == [rest];
  }

  /** With a scheme, only the two known ones are accepted, and all three parts must be there. */
  lemma ParseQualified(scheme: string, tenant: string, namespace: string, name: string)
    requires '/' !in tenant && '/' !in namespace
    requires EndsAtFirstMark(scheme, tenant + "/" + namespace + "/" + name)
    ensures var raw := scheme + "://" + (tenant + "/" + namespace + "/" + name);
      Parse(raw) == if scheme != "persistent" && scheme != "non-persistent" then Failure(UnsupportedScheme)
                    else if tenant == "" || namespace == "" || name == "" then Failure(InvalidTopic)
                    else Success(Info(scheme == "persistent", tenant, namespace, name, raw))
  {
    var rest := tenant + "/" + namespace + "/" + name;
    assert rest == tenant + "/" + (namespace + "/" + name);
    FirstMarkSplits(scheme, rest);
    SplitJoined(tenant, namespace, name);
    NamePrinted(scheme, tenant, namespace, name);
    hide *;
    PartsParsed(scheme + MARK + rest, scheme, rest, tenant, namespace, name);
  }

  lemma PartsParsed(raw: string, scheme: string, rest: string, tenant: string, namespace: string, name: string)
    requires raw != "" && rest != "" && Contains(raw, MARK) && SplitN(raw, MARK, 2) == [scheme, rest]
    requires SplitN(rest, "/", 3) == [tenant, namespace, name]
    ensures Parse(raw) == if scheme != "persistent" && scheme != "non-persistent" then Failure(UnsupportedScheme)
                          else if tenant == "" || namespace == "" || name == "" then Failure(InvalidTopic)
                          else Success(Info(scheme == "persistent", tenant, namespace, name,
                                            FullName(scheme, tenant, namespace, name)))
  {
    hide SplitN, Contains, FullName;
  }

  lemma NamePrinted(scheme: string, tenant: string, namespace: string, name: string)
    ensures var rest := tenant + "/" + namespace + "/" + name;
      FullName(scheme, tenant, namespace, name) == scheme + "://" + rest == scheme + MARK + rest
  {
    assert tenant + "/" + namespace + "/" + name == tenant + "/" + (namespace + "/" + name);
  }

  /** Parsing a canonical name gives back the parts it was printed from. */
  lemma ParseCanonical(persistent: bool, tenant: string, namespace: string, name: string)
    requires '/' !in tenant && '/' !in namespace && tenant != "" && namespace != "" && name != ""
    ensures var full := FullName(if persistent then PERSISTENT else NON_PERSISTENT, tenant, namespace, name);
            Parse(full) == Success(Info(persistent, tenant, namespace, name, full))
  {
    hide Parse;
    var scheme := if persistent then PERSISTENT else NON_PERSISTENT;
    var rest := tenant + "/" + namespace + "/" + name;
    assert rest == tenant + "/" + (namespace + "/" + name);
    ParseQualified(scheme, tenant, namespace, name);
  }

  lemma ParseQualifiedShort(scheme: string, rest: string)
    requires EndsAtFirstMark(scheme, rest) && !TwoSlashes(rest)
    ensures Parse(scheme + "://" + rest)
         == Failure(if scheme != "persistent" && scheme != "non-persistent" then UnsupportedScheme else InvalidTopic)
  {
    FirstMarkSplits(scheme, rest);
    SplitsInThree(rest);
  }

  /** Printing and parsing again changes nothing, for every accepted string. */
  lemma ParseFullName(raw: string)
    requires Parse(raw).Success?
    ensures Parse(Parse(raw).value.fullName) == Parse(raw)
  {
    ParsedParts(raw);
    var i := Parse(raw).value;
    ParseCanonical(i.persistent, i.tenant, i.namespace, i.name);
  }

  /** Looking a persistent topic up by full name or by its three columns finds the same topic. */
  lemma FullNameIdentifiesTopic(a: string, b: string)
    requires Parse(a).Success? && Parse(b).Success?
    requires Parse(a).value.persistent && Parse(b).value.persistent
    ensures Parse(a).value.fullName == Parse(b).value.fullName <==> Key(Parse(a).value) == Key(Parse(b).value)
  {
    ParseFullName(a);
    ParseFullName(b);
    ParsedParts(a);
    ParsedParts(b);
  }
}
