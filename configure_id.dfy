/**
 * Resolving a configuration path to a ConfigureId (application id, sub-path,
 * resource name).
 *
 * The source matches three anchored regular expressions. Each is modelled by
 * the language it denotes (the ...Denotes predicates) and by a deterministic
 * parser for that language (the Match... functions); lemmas show that the
 * parser accepts exactly the language and recovers exactly the captures.
 *
 * The patterns share the character class [a-z0-9\s\-_\@\-\^!#$%&] and the
 * tail "(?<subpath>(/C)*)/(?<resource>C+).json$". In that tail the `.` is not
 * escaped, so it stands for any character but a newline, and `$` matches at
 * the very end or just before one final newline.
 */
module ConfigurePath {
  import opened Wrappers
  import opened QtString

  datatype ConfigureId = ConfigureId(appid: string, subpath: string, resource: string)

  /** A default-constructed ConfigureId: the "not resolved" answer. */
  const Unresolved := ConfigureId("", "", "")

  /** `\s` without Unicode properties: space, tab, line feed, vertical tab, form feed, carriage return. */
  predicate IsSpace(c: char)
  {
    c == ' ' || 9 <= c as int <= 13
  }

  /** The character class [a-z0-9\s\-_\@\-\^!#$%&]. */
  predicate InCharset(c: char)
  {
    ('a' <= c <= 'z') || ('0' <= c <= '9') || IsSpace(c) || c in "-_@^!#$%&"
  }

  /** A token, C+: the language of the appid and resource groups. */
  predicate IsToken(t: string)
  {
    |t| > 0 && forall i :: 0 <= i < |t| ==> InCharset(t[i])
  }

  /** (/C)*: zero or more pairs of a `/` and ONE charset character. */
  predicate IsSubpath(s: string)
    decreases |s|
  {
    s == [] || (|s| >= 2 && s[0] == '/' && InCharset(s[1]) && IsSubpath(s[2..]))
  }

  const NewLine: char := 10 as char

  /**
   * The body of the tail with captures s and t: s + "/" + t, then one
   * character other than a newline (the unescaped `.`), then "json".
   */
  ghost predicate BodyDenotes(u: string, s: string, t: string)
  {
    var head := s + "/" + t;
    IsSubpath(s) && IsToken(t) &&
    |u| == |head| + 5 && u[..|head|] == head && u[|head|] != NewLine && u[|head| + 1..] == "json"
  }

  /**
   * The tail "(?<subpath>(/C)*)/(?<resource>C+).json$": the body, then at most
   * one final newline, which `$` lets through.
   */
  ghost predicate TailDenotes(tail: string, s: string, t: string)
  {
    BodyDenotes(tail, s, t) ||
    (|tail| > 0 && tail[|tail| - 1] == NewLine && BodyDenotes(tail[..|tail| - 1], s, t))
  }

  /** No charset character is a `/`, so a token holds none. */
  lemma TokenHasNoSlash(t: string)
    requires IsToken(t)
    ensures '/' !in t
  {
    forall i | 0 <= i < |t| ensures t[i] != '/' {
      assert InCharset(t[i]);
    }
  }

  /** Split s + "/" + t at its last `/` and check both parts. */
  function SplitHead(v: string): (r: Option<(string, string)>)
    ensures r.Some? ==> IsSubpath(r.value.0) && IsToken(r.value.1) && v == r.value.0 + "/" + r.value.1
  {
    var j := LastIndexOf(v, '/');
    if j < 0 then None else SplitHeadAt(v, j)
  }

  /** Split at the `/` at position j and check both parts. */
  function SplitHeadAt(v: string, j: nat): (r: Option<(string, string)>)
    requires j < |v| && v[j] == '/'
    ensures r.Some? ==> IsSubpath(r.value.0) && IsToken(r.value.1) && v == r.value.0 + "/" + r.value.1
  {
    if !IsSubpath(v[..j]) || !IsToken(v[j + 1..]) then None
    else
      assert v == v[..j] + "/" + v[j + 1..];
      Some((v[..j], v[j + 1..]))
  }

  /** The token after the last `/` holds no `/`, so the split recovers s and t. */
  lemma SplitHeadComplete(s: string, t: string)
    requires IsSubpath(s) && IsToken(t)
    ensures SplitHead(s + "/" + t) == Some((s, t))
  {
    TokenHasNoSlash(t);
    assert s + "/" + t == s + ['/'] + t;
    LastIndexOfSplit(s, '/', t);
    SplitHeadAtComplete(s, t);
  }

  /** Cut at the `/` after s, the split recovers s and t. */
  lemma SplitHeadAtComplete(s: string, t: string)
    requires IsSubpath(s) && IsToken(t)
    ensures SplitHeadAt(s + "/" + t, |s|) == Some((s, t))
  {
    var v := s + "/" + t;
    SplitConcat(s + "/", t);
    SplitConcat(s, "/");
    assert v[..|s|] == v[..|s| + 1][..|s|];
    assert v[|s|] == (s + "/")[|s|];
  }

  /** The body parser: "json" at the end, a non-newline before it, then the split. */
  function MatchBody(u: string): (r: Option<(string, string)>)
    ensures r.Some? ==> BodyDenotes(u, r.value.0, r.value.1)
  {
    if |u| < 5 || u[|u| - 4..] != "json" || u[|u| - 5] == NewLine then None
    else SplitHead(u[..|u| - 5])
  }

  /** The body parser finds every decomposition the body language admits. */
  lemma MatchBodyComplete(u: string, s: string, t: string)
    requires BodyDenotes(u, s, t)
    ensures MatchBody(u) == Some((s, t))
  {
    var n := |s + "/" + t|;
    assert u[|u| - 4..] == u[n + 1..];
    assert u[..|u| - 5] == u[..n];
    SplitHeadComplete(s, t);
  }

  /** The tail parser: drop one final newline, then parse the body. */
  function MatchTail(tail: string): (r: Option<(string, string)>)
    ensures r.Some? ==> TailDenotes(tail, r.value.0, r.value.1)
  {
    if |tail| > 0 && tail[|tail| - 1] == NewLine then MatchBody(tail[..|tail| - 1]) else MatchBody(tail)
  }

  /** The tail parser finds every decomposition the tail language admits. */
  lemma MatchTailComplete(tail: string, s: string, t: string)
    requires TailDenotes(tail, s, t)
    ensures MatchTail(tail) == Some((s, t))
  {
    if BodyDenotes(tail, s, t) {
      assert tail[|tail| - 1] == tail[|tail| - 4..][3] == 'n';
      MatchBodyComplete(tail, s, t);
    } else {
      MatchBodyComplete(tail[..|tail| - 1], s, t);
    }
  }

  /**
   * What follows a rule's prefix, with the named captures held in `id`: the
   * appid token, the middle literal, then the tail.
   */
  ghost predicate RestDenotes(middle: string, rest: string, id: ConfigureId)
  {
    var a, n := id.appid, |id.appid| + |middle|;
    IsToken(a) && |rest| >= n && rest[..|a|] == a && rest[|a|..n] == middle &&
    TailDenotes(rest[n..], id.subpath, id.resource)
  }

  /** A rule's whole pattern "^prefix(?<appid>C+)middle" + tail. */
  ghost predicate RuleDenotes(prefix: string, middle: string, path: string, id: ConfigureId)
  {
    |path| >= |prefix| && path[..|prefix|] == prefix && RestDenotes(middle, path[|prefix|..], id)
  }

  /** The parser after the prefix: the appid runs up to the next `/`. */
  function MatchRest(middle: string, rest: string): Option<ConfigureId>
  {
    var i := IndexOf(rest, '/');
    if i < 0 then None else MatchRestAt(middle, rest, i)
  }

  /** The parser after the prefix, with the appid cut at position i. */
  function MatchRestAt(middle: string, rest: string, i: nat): Option<ConfigureId>
    requires i <= |rest|
  {
    if !IsToken(rest[..i]) || |rest| - i < |middle| || rest[i..i + |middle|] != middle then None
    else
      var m := MatchTail(rest[i + |middle|..]);
      if m.None? then None else Some(ConfigureId(rest[..i], m.value.0, m.value.1))
  }

  /** Every answer of the parser after the prefix is in the language after the prefix. */
  lemma MatchRestSound(middle: string, rest: string)
    ensures MatchRest(middle, rest).Some? ==> RestDenotes(middle, rest, MatchRest(middle, rest).value)
  {
    var i := IndexOf(rest, '/');
    if 0 <= i {
      MatchRestAtSound(middle, rest, i);
    }
  }

  /** The same at a given cut. */
  lemma MatchRestAtSound(middle: string, rest: string, i: nat)
    requires i <= |rest|
    ensures MatchRestAt(middle, rest, i).Some? ==> RestDenotes(middle, rest, MatchRestAt(middle, rest, i).value)
  {
    if MatchRestAt(middle, rest, i).Some? {
      var m := MatchTail(rest[i + |middle|..]);
      RestDenotesAt(middle, rest, i, m.value.0, m.value.1);
    }
  }

  /** The pieces of a match after the prefix, cut at position i, make up its language. */
  lemma RestDenotesAt(middle: string, rest: string, i: nat, s: string, t: string)
    requires i + |middle| <= |rest| && IsToken(rest[..i]) && rest[i..i + |middle|] == middle
    requires TailDenotes(rest[i + |middle|..], s, t)
    ensures RestDenotes(middle, rest, ConfigureId(rest[..i], s, t))
  {
    assert |rest[..i]| == i;
  }

  /** The parser for a whole rule: the prefix, then the rest. */
  function MatchAppRule(prefix: string, middle: string, path: string): (r: Option<ConfigureId>)
    ensures r.Some? ==> IsToken(r.value.appid) && IsSubpath(r.value.subpath) && IsToken(r.value.resource)
  {
    if |path| < |prefix| || path[..|prefix|] != prefix then None
    else
      MatchRestSound(middle, path[|prefix|..]);
      MatchRest(middle, path[|prefix|..])
  }

  /** Whatever the rule parser returns is in the rule's language with those captures. */
  lemma MatchAppRuleSound(prefix: string, middle: string, path: string)
    ensures MatchAppRule(prefix, middle, path).Some? ==> RuleDenotes(prefix, middle, path, MatchAppRule(prefix, middle, path).value)
  {
    if |path| >= |prefix| && path[..|prefix|] == prefix {
      MatchRestSound(middle, path[|prefix|..]);
    }
  }

  /** In a text that starts with a token and then a `/`, the first `/` is the one after the token. */
  lemma FirstSlashAfterToken(a: string, rest: string)
    requires IsToken(a) && |rest| > |a| && rest[..|a|] == a && rest[|a|] == '/'
    ensures IndexOf(rest, '/') == |a|
  {
    TokenHasNoSlash(a);
    IndexOfAt(rest, '/', |a|);
  }

  /** When the middle starts with `/`, the parser after the prefix finds every match. */
  lemma MatchRestComplete(middle: string, rest: string, id: ConfigureId)
    requires |middle| > 0 && middle[0] == '/'
    requires RestDenotes(middle, rest, id)
    ensures MatchRest(middle, rest) == Some(id)
  {
    var a, n := id.appid, |id.appid| + |middle|;
    assert rest[|a|] == rest[|a|..n][0];
    FirstSlashAfterToken(a, rest);
    MatchRestAtComplete(middle, rest, id);
  }

  /** Cut after the appid, the parser after the prefix finds every match. */
  lemma MatchRestAtComplete(middle: string, rest: string, id: ConfigureId)
    requires RestDenotes(middle, rest, id)
    ensures MatchRestAt(middle, rest, |id.appid|) == Some(id)
  {
    var a, n := id.appid, |id.appid| + |middle|;
    MatchTailComplete(rest[n..], id.subpath, id.resource);
    assert id == ConfigureId(rest[..|a|], id.subpath, id.resource);
  }

  /** When the middle starts with `/`, the rule parser finds every match of the rule. */
  lemma MatchAppRuleComplete(prefix: string, middle: string, path: string, id: ConfigureId)
    requires |middle| > 0 && middle[0] == '/'
    requires RuleDenotes(prefix, middle, path, id)
    ensures MatchAppRule(prefix, middle, path) == Some(id)
  {
    MatchRestComplete(middle, path[|prefix|..], id);
  }

  /** The two halves of a concatenation. */
  lemma SplitConcat(x: string, y: string)
    ensures (x + y)[..|x|] == x && (x + y)[|x|..] == y
  {
  }

  /** With x not a newline, s + "/" + t + [x] + "json" is in the body language. */
  lemma BodyTemplate(s: string, t: string, x: char)
    requires IsSubpath(s) && IsToken(t) && x != NewLine
    ensures BodyDenotes(s + "/" + t + [x] + "json", s, t)
  {
    var head := s + "/" + t;
    var u := head + [x] + "json";
    SplitConcat(head + [x], "json");
    SplitConcat(head, [x]);
    assert u[..|head|] == u[..|head| + 1][..|head|];
    assert u[|head|] == (head + [x])[|head|];
  }

  /** a + middle + tail, with a a token and tail in the tail language, is in the language after the prefix. */
  lemma RestTemplate(middle: string, a: string, tail: string, s: string, t: string)
    requires IsToken(a) && TailDenotes(tail, s, t)
    ensures RestDenotes(middle, a + middle + tail, ConfigureId(a, s, t))
  {
    var rest := a + middle + tail;
    SplitConcat(a + middle, tail);
    SplitConcat(a, middle);
    assert rest[..|a|] == (a + middle)[..|a|];
    assert rest[|a|..|a| + |middle|] == (a + middle)[|a|..];
  }

  /** The template prefix + a + middle + s + "/" + t + ".json" is in the rule's language. */
  lemma TemplateDenotes(prefix: string, middle: string, a: string, s: string, t: string)
    requires IsToken(a) && IsSubpath(s) && IsToken(t)
    ensures RuleDenotes(prefix, middle, prefix + a + middle + s + "/" + t + ".json", ConfigureId(a, s, t))
  {
    DotJsonTail(s, t);
    TemplateAssoc(prefix, a, middle, s, t);
    RuleTemplate(prefix, middle, a, s + "/" + t + ".json", s, t);
  }

  /** s + "/" + t + ".json" is in the tail language. */
  lemma DotJsonTail(s: string, t: string)
    requires IsSubpath(s) && IsToken(t)
    ensures TailDenotes(s + "/" + t + ".json", s, t)
  {
    assert s + "/" + t + ".json" == s + "/" + t + ['.'] + "json";
    BodyTemplate(s, t, '.');
  }

  /** A prefix, a token, the middle and a text in the tail language make a text in the rule's language. */
  lemma RuleTemplate(prefix: string, middle: string, a: string, tail: string, s: string, t: string)
    requires IsToken(a) && TailDenotes(tail, s, t)
    ensures RuleDenotes(prefix, middle, prefix + a + middle + tail, ConfigureId(a, s, t))
  {
    RestTemplate(middle, a, tail, s, t);
    assert prefix + a + middle + tail == prefix + (a + middle + tail);
    SplitConcat(prefix, a + middle + tail);
  }

  /** Regrouping the template path after the middle. */
  lemma TemplateAssoc(prefix: string, a: string, middle: string, s: string, t: string)
    ensures prefix + a + middle + s + "/" + t + ".json" == prefix + a + middle + (s + "/" + t + ".json")
  {
  }

  /**
   * Past a valid appid and the middle, the rule parser's answer is the tail
   * parser's answer.
   */
  lemma MatchAppRuleSplit(prefix: string, middle: string, a: string, tail: string)
    requires IsToken(a) && |middle| > 0 && middle[0] == '/'
    ensures MatchAppRule(prefix, middle, prefix + a + middle + tail) ==
      match MatchTail(tail)
      case None => None
      case Some((s, t)) => Some(ConfigureId(a, s, t))
  {
    var rest := a + middle + tail;
    assert prefix + a + middle + tail == prefix + rest;
    SplitConcat(prefix, rest);
    SplitConcat(a + middle, tail);
    SplitConcat(a, middle);
    assert rest[..|a|] == (a + middle)[..|a|];
    assert rest[|a|..|a| + |middle|] == (a + middle)[|a|..];
    assert rest[|a|] == middle[0];
    FirstSlashAfterToken(a, rest);
  }

  /** When the text between the prefix and the next `/` is not a token, the rule does not match. */
  lemma AppIdRejected(prefix: string, middle: string, a: string, rest: string)
    requires '/' !in a && !IsToken(a)
    ensures MatchAppRule(prefix, middle, prefix + a + "/" + rest) == None
  {
    var r := a + ['/'] + rest;
    assert prefix + a + "/" + rest == prefix + r;
    SplitConcat(prefix, r);
    IndexOfSplit(a, '/', rest);
    assert r[..|a|] == a;
  }

  const UsrPrefix := "/usr/share/dsg/apps/"
  const UsrMiddle := "/configs"
  const OptPrefix := "/opt/apps/"
  const OptMiddle := "/files/schemas/configs"

  /** The language of usrReg: /usr/share/dsg/apps/$appid/configs[$subpath]/$resource.json */
  ghost predicate UsrDenotes(path: string, id: ConfigureId)
  {
    RuleDenotes(UsrPrefix, UsrMiddle, path, id)
  }

  /** The language of optReg: /opt/apps/$appid/files/schemas/configs[$subpath]/$resource.json */
  ghost predicate OptDenotes(path: string, id: ConfigureId)
  {
    RuleDenotes(OptPrefix, OptMiddle, path, id)
  }

  /**
   * getAppConfigureId: usrReg first, optReg when usrReg does not match, and
   * a default ConfigureId when neither does.
   */
  function GetAppConfigureId(path: string): (r: ConfigureId)
    ensures r == Unresolved || (IsToken(r.appid) && IsSubpath(r.subpath) && IsToken(r.resource))
  {
    match MatchAppRule(UsrPrefix, UsrMiddle, path)
    case Some(id) => id
    case None =>
      match MatchAppRule(OptPrefix, OptMiddle, path)
      case Some(id) => id
      case None => Unresolved
  }

  /** The result is all-empty, or a match of usrReg or of optReg with its captures. */
  lemma GetAppConfigureIdSound(path: string)
    ensures var r := GetAppConfigureId(path);
      r == Unresolved || UsrDenotes(path, r) || OptDenotes(path, r)
  {
    MatchAppRuleSound(UsrPrefix, UsrMiddle, path);
    MatchAppRuleSound(OptPrefix, OptMiddle, path);
  }

  lemma RulesExclusive(path: string, id1: ConfigureId, id2: ConfigureId)
    ensures !(UsrDenotes(path, id1) && OptDenotes(path, id2))
  {
    if UsrDenotes(path, id1) {
      assert path[1] == path[..|UsrPrefix|][1] == 'u';
    }
    if OptDenotes(path, id2) {
      assert path[1] == path[..|OptPrefix|][1] == 'o';
    }
  }

  /** A path that differs from a rule's prefix at some position does not match the rule. */
  lemma PrefixMismatch(prefix: string, middle: string, path: string, i: nat)
    requires i < |prefix| && i < |path| && path[i] != prefix[i]
    ensures MatchAppRule(prefix, middle, path) == None
  {
    if |path| >= |prefix| {
      assert path[..|prefix|][i] != prefix[i];
    }
  }

  /** A path under the /usr prefix never matches optReg. */
  lemma UsrPathNotOpt(rest: string)
    ensures MatchAppRule(OptPrefix, OptMiddle, UsrPrefix + rest) == None
  {
    PrefixMismatch(OptPrefix, OptMiddle, UsrPrefix + rest, 1);
  }

  /** A path under the /opt prefix never matches usrReg. */
  lemma OptPathNotUsr(rest: string)
    ensures MatchAppRule(UsrPrefix, UsrMiddle, OptPrefix + rest) == None
  {
    PrefixMismatch(UsrPrefix, UsrMiddle, OptPrefix + rest, 1);
  }

  /** A path in usrReg's language resolves to exactly its captures. */
  lemma UsrResolves(path: string, id: ConfigureId)
    requires UsrDenotes(path, id)
    ensures GetAppConfigureId(path) == id
  {
    MatchAppRuleComplete(UsrPrefix, UsrMiddle, path, id);
  }

  /** A path in optReg's language resolves to exactly its captures. */
  lemma OptResolves(path: string, id: ConfigureId)
    requires OptDenotes(path, id)
    ensures GetAppConfigureId(path) == id
  {
    assert path[1] == path[..|OptPrefix|][1];
    PrefixMismatch(UsrPrefix, UsrMiddle, path, 1);
    MatchAppRuleComplete(OptPrefix, OptMiddle, path, id);
  }

  /** A path in neither language resolves to the all-empty ConfigureId. */
  lemma NeitherResolves(path: string)
    requires forall id :: !UsrDenotes(path, id) && !OptDenotes(path, id)
    ensures GetAppConfigureId(path) == Unresolved
  {
    var r := GetAppConfigureId(path);
    GetAppConfigureIdSound(path);
    assert !UsrDenotes(path, r) && !OptDenotes(path, r);
  }

  /** The usual form: /usr/share/dsg/apps/a/configs s/t.json gives back {a, s, t}. */
  lemma UsrRoundTrip(a: string, s: string, t: string)
    requires IsToken(a) && IsSubpath(s) && IsToken(t)
    ensures GetAppConfigureId(UsrPrefix + a + UsrMiddle + s + "/" + t + ".json") == ConfigureId(a, s, t)
  {
    TemplateDenotes(UsrPrefix, UsrMiddle, a, s, t);
    UsrResolves(UsrPrefix + a + UsrMiddle + s + "/" + t + ".json", ConfigureId(a, s, t));
  }

  /** The usual form: /opt/apps/a/files/schemas/configs s/t.json gives back {a, s, t}. */
  lemma OptRoundTrip(a: string, s: string, t: string)
    requires IsToken(a) && IsSubpath(s) && IsToken(t)
    ensures GetAppConfigureId(OptPrefix + a + OptMiddle + s + "/" + t + ".json") == ConfigureId(a, s, t)
  {
    TemplateDenotes(OptPrefix, OptMiddle, a, s, t);
    OptResolves(OptPrefix + a + OptMiddle + s + "/" + t + ".json", ConfigureId(a, s, t));
  }

  /**
   * The unescaped `.` takes any character but a newline, and one final newline
   * after "json" is still a match.
   */
  lemma UsrAnyDotFinalNewline(a: string, s: string, t: string, x: char)
    requires IsToken(a) && IsSubpath(s) && IsToken(t) && x != NewLine
    ensures var tail := s + "/" + t + [x] + "json" + [NewLine];
      GetAppConfigureId(UsrPrefix + a + UsrMiddle + tail) == ConfigureId(a, s, t)
  {
    var u := s + "/" + t + [x] + "json";
    var tail := u + [NewLine];
    BodyTemplate(s, t, x);
    assert tail[..|tail| - 1] == u;
    MatchTailComplete(tail, s, t);
    MatchAppRuleSplit(UsrPrefix, UsrMiddle, a, tail);
  }

  /** A newline in place of the `.` is not a match. */
  lemma UsrNewlineForDot(a: string, s: string, t: string)
    requires IsToken(a) && IsSubpath(s) && IsToken(t)
    ensures var tail := s + "/" + t + [NewLine] + "json";
      GetAppConfigureId(UsrPrefix + a + UsrMiddle + tail) == Unresolved
  {
    var tail := s + "/" + t + [NewLine] + "json";
    assert tail[|tail| - 1] == 'n' && tail[|tail| - 5] == NewLine && tail[|tail| - 4..] == "json";
    assert MatchTail(tail) == None;
    MatchAppRuleSplit(UsrPrefix, UsrMiddle, a, tail);
    UsrPathNotOpt(a + UsrMiddle + tail);
    assert UsrPrefix + a + UsrMiddle + tail == UsrPrefix + (a + UsrMiddle + tail);
  }

  /** A two-character sub-path segment: /usr/share/dsg/apps/a/configs/ab/x.json is not resolved. */
  lemma LongSegmentUnresolved()
    ensures GetAppConfigureId(UsrPrefix + "a" + UsrMiddle + "/ab/x.json") == Unresolved
  {
    var tail := "/ab/x.json";
    var v := tail[..|tail| - 5];
    assert v == "/ab/x";
    assert LastIndexOf(v, '/') == 3;
    assert !IsSubpath(v[..3]);
    MatchAppRuleSplit(UsrPrefix, UsrMiddle, "a", tail);
    UsrPathNotOpt("a" + UsrMiddle + tail);
    assert UsrPrefix + "a" + UsrMiddle + tail == UsrPrefix + ("a" + UsrMiddle + tail);
  }

  /** An upper-case letter in the appid: /usr/share/dsg/apps/Abc/configs/x.json is not resolved. */
  lemma UpperCaseUnresolved()
    ensures GetAppConfigureId(UsrPrefix + "Abc" + "/configs/x.json") == Unresolved
  {
    assert !InCharset("Abc"[0]);
    AppIdRejected(UsrPrefix, UsrMiddle, "Abc", "configs/x.json");
    UsrPathNotOpt("Abc" + "/configs/x.json");
    assert UsrPrefix + "Abc" + "/configs/x.json" == UsrPrefix + ("Abc" + "/configs/x.json");
  }

  /** A `.` in the appid (a reverse-DNS name): /opt/apps/org.deepin/files/schemas/configs/x.json is not resolved. */
  lemma DottedAppIdUnresolved()
    ensures GetAppConfigureId(OptPrefix + "org.deepin" + "/files/schemas/configs/x.json") == Unresolved
  {
    assert !InCharset("org.deepin"[3]);
    AppIdRejected(OptPrefix, OptMiddle, "org.deepin", "files/schemas/configs/x.json");
    OptPathNotUsr("org.deepin" + "/files/schemas/configs/x.json");
    assert OptPrefix + "org.deepin" + "/files/schemas/configs/x.json" == OptPrefix + ("org.deepin" + "/files/schemas/configs/x.json");
  }

  /** A path under neither root: /etc/foo.json is not resolved. */
  lemma ForeignPathUnresolved()
    ensures GetAppConfigureId("/etc/foo.json") == Unresolved
  {
  }

  /** /usr/share/dsg/apps/a/configs/b/x.json resolves to {"a", "/b", "x"}. */
  lemma SingleSegmentResolves()
    ensures GetAppConfigureId(UsrPrefix + "a" + UsrMiddle + "/b" + "/" + "x" + ".json") == ConfigureId("a", "/b", "x")
  {
    assert IsSubpath("/b") by { assert "/b"[2..] == []; }
    UsrRoundTrip("a", "/b", "x");
  }

  /**
   * The generic rule "^root(?<subpath>(/C)*)/(?<resource>C+).json$", with the
   * root taken as literal text.
   */
  ghost predicate GenericDenotes(root: string, path: string, s: string, t: string)
  {
    |path| >= |root| && path[..|root|] == root && TailDenotes(path[|root|..], s, t)
  }

  /** The parser for the generic rule. */
  function MatchGeneric(root: string, path: string): (r: Option<(string, string)>)
    ensures r.Some? ==> GenericDenotes(root, path, r.value.0, r.value.1)
  {
    if |path| < |root| || path[..|root|] != root then None else MatchTail(path[|root|..])
  }

  /**
   * getGenericConfigureId as written: the subpath field is filled from the
   * "appid" group, which this pattern does not have (so it stays empty), the
   * resource field from the "subpath" group, and appid is never set.
   */
  function GetGenericConfigureId(root: string, path: string): (r: ConfigureId)
    ensures r.appid == "" && r.subpath == ""
    ensures r.resource == "" || IsSubpath(r.resource)
  {
    match MatchGeneric(root, path)
    case Some((s, _)) => ConfigureId("", "", s)
    case None => Unresolved
  }

  /** As written, a generic match yields {"", "", subpath}: the resource field holds the sub-path. */
  lemma GenericAsWritten(root: string, path: string, s: string, t: string)
    requires GenericDenotes(root, path, s, t)
    ensures GetGenericConfigureId(root, path) == ConfigureId("", "", s)
  {
    MatchTailComplete(path[|root|..], s, t);
  }

  /** A path outside the generic language yields the all-empty ConfigureId. */
  lemma GenericNoMatch(root: string, path: string)
    requires forall s, t :: !GenericDenotes(root, path, s, t)
    ensures GetGenericConfigureId(root, path) == Unresolved
  {
  }

  /**
   * The discrepancy: for root + "/a/general.json" the as-written resolver
   * reports resource "/a" and no sub-path, where the captures are
   * subpath "/a" and resource "general".
   */
  lemma GenericFieldsMisassigned(root: string)
    ensures GetGenericConfigureId(root, root + "/a/general.json") == ConfigureId("", "", "/a")
    ensures GetGenericConfigureIdIntended(root, root + "/a/general.json") == ConfigureId("", "/a", "general")
  {
    var path := root + "/a/general.json";
    var tail := "/a/general.json";
    assert path[..|root|] == root && path[|root|..] == tail;
    assert IsSubpath("/a") by { assert "/a"[2..] == []; }
    assert IsToken("general");
    assert tail[..|"/a" + "/" + "general"|] == "/a" + "/" + "general";
    assert GenericDenotes(root, path, "/a", "general");
    GenericAsWritten(root, path, "/a", "general");
    GenericIntendedResolves(root, path, "/a", "general");
  }

  /**
   * getGenericConfigureId with each capture stored in the field of the same
   * name, as the pattern's group names intend.
   */
  function GetGenericConfigureIdIntended(root: string, path: string): (r: ConfigureId)
    ensures r.appid == ""
    ensures r != Unresolved ==> GenericDenotes(root, path, r.subpath, r.resource)
  {
    match MatchGeneric(root, path)
    case Some((s, t)) => ConfigureId("", s, t)
    case None => Unresolved
  }

  /** The intended resolver gives back exactly the sub-path and resource of a matching path. */
  lemma GenericIntendedResolves(root: string, path: string, s: string, t: string)
    requires GenericDenotes(root, path, s, t)
    ensures GetGenericConfigureIdIntended(root, path) == ConfigureId("", s, t)
  {
    MatchTailComplete(path[|root|..], s, t);
  }

  /** The generic template root + s + "/" + t + ".json" is in the generic language. */
  lemma GenericTemplateDenotes(root: string, s: string, t: string)
    requires IsSubpath(s) && IsToken(t)
    ensures GenericDenotes(root, root + (s + "/" + t + ".json"), s, t)
  {
    DotJsonTail(s, t);
    SplitConcat(root, s + "/" + t + ".json");
  }

  /** As written, the generic template resolves to {"", "", s}. */
  lemma GenericRoundTrip(root: string, s: string, t: string)
    requires IsSubpath(s) && IsToken(t)
    ensures GetGenericConfigureId(root, root + (s + "/" + t + ".json")) == ConfigureId("", "", s)
  {
    GenericTemplateDenotes(root, s, t);
    GenericAsWritten(root, root + (s + "/" + t + ".json"), s, t);
  }

  /** With the intended mapping, the generic template resolves to exactly {"", s, t}. */
  lemma GenericIntendedRoundTrip(root: string, s: string, t: string)
    requires IsSubpath(s) && IsToken(t)
    ensures GetGenericConfigureIdIntended(root, root + (s + "/" + t + ".json")) == ConfigureId("", s, t)
  {
    GenericTemplateDenotes(root, s, t);
    GenericIntendedResolves(root, root + (s + "/" + t + ".json"), s, t);
  }

  /** The intended resolver gives the all-empty ConfigureId exactly on paths outside the language. */
  lemma GenericIntendedUnresolved(root: string, path: string)
    ensures GetGenericConfigureIdIntended(root, path) == Unresolved <==>
      forall s, t :: !GenericDenotes(root, path, s, t)
  {
    if GetGenericConfigureIdIntended(root, path) == Unresolved {
      forall s, t ensures !GenericDenotes(root, path, s, t) {
        if GenericDenotes(root, path, s, t) {
          GenericIntendedResolves(root, path, s, t);
        }
      }
    }
  }

  /**
   * root + "/org.app/general.json" is outside the generic language: "org.app"
   * is neither a single-character segment nor free of `.`.
   */
  lemma DottedGenericSegmentUnresolved(root: string)
    ensures GetGenericConfigureId(root, root + "/org.app/general.json") == Unresolved
    ensures GetGenericConfigureIdIntended(root, root + "/org.app/general.json") == Unresolved
  {
    var path := root + "/org.app/general.json";
    var tail := "/org.app/general.json";
    assert path[..|root|] == root && path[|root|..] == tail;
    var v := tail[..|tail| - 5];
    assert v == "/org.app" + ['/'] + "general";
    LastIndexOfSplit("/org.app", '/', "general");
    var segment := v[..8];
    assert segment == "/org.app" && segment[2..] == "rg.app";
    assert !IsSubpath("rg.app");
    assert MatchTail(tail) == None;
  }
}
