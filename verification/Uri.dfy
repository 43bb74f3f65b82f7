/** The connection URI splitter of src/uri.cpp:13-63 and the text it takes apart: the
    generic syntax of section 3 of RFC 3986 with the user information, host and port of an
    authority. */
module Uri {
  import opened SqlText
  import D = Decimal

  /** The eight fields of `uri_type`. */
  datatype Fields = Fields(value: string, protocol: string, user: string, password: string,
                           host: string, port: string, path: string, query: string)

  // ----- cutting at a delimiter -----

  /** The text before the first `c`, or all of it. */
  function Before(s: string, c: char): string {
    if s == [] || s[0] == c then [] else [s[0]] + Before(s[1..], c)
  }

  /** The text after the first `c`, or nothing. */
  function After(s: string, c: char): string {
    if s == [] then [] else if s[0] == c then s[1..] else After(s[1..], c)
  }

  lemma {:induction false} BeforeIsFree(s: string, c: char)
    ensures c !in Before(s, c)
    decreases |s|
  {
    if s != [] && s[0] != c {
      BeforeIsFree(s[1..], c);
    }
  }

  lemma {:induction false} Cut(a: string, c: char, b: string)
    requires c !in a
    ensures Before(a + [c] + b, c) == a && After(a + [c] + b, c) == b
    decreases |a|
  {
    var s := a + [c] + b;
    if a == [] {
      assert s[0] == c && s[1..] == b;
    } else {
      assert s[0] == a[0] && s[1..] == a[1..] + [c] + b;
      Cut(a[1..], c, b);
    }
  }

  lemma {:induction false} Uncut(s: string, c: char)
    ensures if c in s then s == Before(s, c) + [c] + After(s, c) else Before(s, c) == s && After(s, c) == []
    decreases |s|
  {
    if s != [] && s[0] != c {
      Uncut(s[1..], c);
    }
  }

  predicate AtSeparator(s: string, i: nat) {
    i + 3 <= |s| && s[i] == ':' && s[i + 1] == '/' && s[i + 2] == '/'
  }

  /** The position of the first `://`, or the end. */
  function Separator(s: string): (k: nat)
    ensures k <= |s| && (k == |s| || AtSeparator(s, k))
    ensures forall i | 0 <= i < k :: !AtSeparator(s, i)
  {
    SeparatorFrom(s, 0)
  }

  function SeparatorFrom(s: string, from: nat): (k: nat)
    requires from <= |s|
    ensures from <= k <= |s| && (k == |s| || AtSeparator(s, k))
    ensures forall i | from <= i < k :: !AtSeparator(s, i)
    decreases |s| - from
  {
    if from == |s| || AtSeparator(s, from) then from else SeparatorFrom(s, from + 1)
  }

  function Lower(s: string): (r: string)
    ensures |r| == |s|
  {
    seq(|s|, i requires 0 <= i < |s| => if 'A' <= s[i] <= 'Z' then s[i] + 32 as char else s[i])
  }

  predicate IsUpper(c: char) {
    'A' <= c <= 'Z'
  }

  /** Lower case: no capital letter is left, and nothing but case has changed. */
  lemma LowerIsLower(s: string)
    ensures forall i | 0 <= i < |s| :: !IsUpper(Lower(s)[i]) && D.Upper(Lower(s)[i]) == D.Upper(s[i])
    ensures forall i | 0 <= i < |s| && !IsUpper(s[i]) :: Lower(s)[i] == s[i]
    ensures Lower(Lower(s)) == Lower(s)
  {
  }

  // ----- what parsing gives -----

  /** The remainder after protocol and user information. */
  function Remainder(rest: string): string {
    if '@' in rest then After(rest, '@') else rest
  }

  /** The iterator code reads past the end of an empty remainder, and assigns a reversed range when
      a remainder without slash starts with a colon. */
  predicate Defined(url: string) {
    var k := Separator(url);
    k == |url| || (var r := Remainder(url[k + 3..]); r != [] && ('/' in r || r[0] != ':'))
  }

  /** The user information, without the `@`. */
  function Info(rest: string): string {
    if '@' in rest then Before(rest, '@') else ""
  }

  function AuthorityOf(r: string): string {
    if '/' in r then Before(r, '/') else ""
  }

  function TailOf(r: string): string {
    if '/' in r then After(r, '/') else r
  }

  function Parsed(url: string): Fields
    requires Defined(url)
  {
    var k := Separator(url);
    if k == |url| then Fields(url, Lower(url), "", "", "", "", "", "")
    else ParsedRest(url, url[..k], Info(url[k + 3..]), Remainder(url[k + 3..]))
  }

  lemma DefinedRest(url: string, k: nat)
    requires Defined(url) && k == Separator(url) < |url|
    ensures var r := Remainder(url[k + 3..]);
            && Parsed(url) == ParsedRest(url, url[..k], Info(url[k + 3..]), r)
            && r != [] && ('/' in r || r[0] != ':')
  {
  }

  function ParsedRest(url: string, protocol: string, info: string, r: string): Fields {
    Fields(url, Lower(protocol), Before(info, ':'), After(info, ':'),
           Lower(Before(AuthorityOf(r), ':')), After(AuthorityOf(r), ':'), Before(TailOf(r), '?'), After(TailOf(r), '?'))
  }

  // ----- parsing into a used object -----

  const BLANK := Fields("", "", "", "", "", "", "", "")

  /** What is assigned after the separator: user and password only if they are there, host appended. */
  function ReparsedRest(f: Fields, rest: string): Fields {
    var info, r := Info(rest), Remainder(rest);
    f.(user := if '@' in rest then Before(info, ':') else f.user,
       password := if ':' in info then After(info, ':') else f.password,
       host := f.host + Lower(Before(AuthorityOf(r), ':')),
       port := After(AuthorityOf(r), ':'), path := Before(TailOf(r), '?'), query := After(TailOf(r), '?'))
  }

  function Reparsed(f: Fields, url: string): Fields
    requires Defined(url)
  {
    var k := Separator(url);
    var g := f.(value := url, protocol := f.protocol + Lower(url[..k]));
    if k == |url| then g else ReparsedRest(g, url[k + 3..])
  }

  /** The fields that parsing this text appends to or leaves alone. */
  predicate EmptyWhereKept(f: Fields, url: string)
    requires Defined(url)
  {
    var k := Separator(url);
    && f.protocol == "" && f.host == ""
    && (k == |url| ==> f.user == f.password == f.port == f.path == f.query == "")
    && (k < |url| ==> ('@' !in url[k + 3..] ==> f.user == "") && (':' !in Info(url[k + 3..]) ==> f.password == ""))
  }

  lemma NothingBefore(a: string, b: string)
    ensures a + b == b <==> a == ""
  {
    assert |a + b| == |a| + |b|;
  }

  lemma RestMatches(f: Fields, rest: string)
    ensures ReparsedRest(f, rest) == ParsedRest(f.value, "", Info(rest), Remainder(rest)).(protocol := f.protocol)
            <==> f.host == "" && ('@' !in rest ==> f.user == "") && (':' !in Info(rest) ==> f.password == "")
  {
    Uncut(Info(rest), ':');
    NothingBefore(f.host, Lower(Before(AuthorityOf(Remainder(rest)), ':')));
  }

  /** Parsing into a used object gives the parse of the text exactly when its protocol and host were
      empty and so was every field whose part the text lacks. */
  lemma ReparsedIff(f: Fields, url: string)
    requires Defined(url)
    ensures Reparsed(f, url) == Parsed(url) <==> EmptyWhereKept(f, url)
  {
    var k := Separator(url);
    NothingBefore(f.protocol, Lower(url[..k]));
    if k == |url| {
      assert url[..k] == url;
    } else {
      DefinedRest(url, k);
      RestMatches(f.(value := url, protocol := f.protocol + Lower(url[..k])), url[k + 3..]);
    }
  }

  lemma ReparsedAppends(f: Fields, url: string)
    requires Defined(url)
    ensures Reparsed(f, url).protocol == f.protocol + Parsed(url).protocol
    ensures Reparsed(f, url).host == f.host + Parsed(url).host
  {
    if Separator(url) == |url| {
      assert url[..|url|] == url && f.host + "" == f.host;
    } else {
      DefinedRest(url, Separator(url));
    }
  }

  // ----- composing -----

  /** Components as written, absent ones as `None`. */
  datatype Parts = Parts(protocol: string, user: Option<string>, password: Option<string>, host: string,
                         port: Option<string>, path: string, query: Option<string>)

  function Suffix(c: char, part: Option<string>): string {
    if part.Some? then [c] + part.value else []
  }

  function UserInfo(p: Parts): string {
    if p.user.Some? then p.user.value + Suffix(':', p.password) + "@" else ""
  }

  function Authority(p: Parts): string {
    p.host + Suffix(':', p.port)
  }

  function Tail(p: Parts): string {
    p.path + Suffix('?', p.query)
  }

  /** `protocol://[user[:password]@]host[:port]/path[?query]` */
  function Compose(p: Parts): string {
    p.protocol + "://" + (UserInfo(p) + (Authority(p) + "/" + Tail(p)))
  }

  /** The same without the slash: no authority, the path directly. */
  function ComposeBare(p: Parts): string {
    p.protocol + "://" + (UserInfo(p) + Tail(p))
  }

  function OrEmpty(part: Option<string>): string {
    if part.Some? then part.value else ""
  }

  function Expected(p: Parts, url: string): Fields {
    Fields(url, Lower(p.protocol), OrEmpty(p.user), OrEmpty(p.password), Lower(p.host), OrEmpty(p.port),
           p.path, OrEmpty(p.query))
  }

  predicate Free(s: string, part: Option<string>, c: char) {
    c !in s && (part.Some? ==> c !in part.value)
  }

  /** Each component is free of the delimiters that would end it. */
  predicate DelimiterFree(p: Parts) {
    && (p.password.Some? ==> p.user.Some?)
    && (p.user.Some? ==> ':' !in p.user.value && Free(p.user.value, p.password, '@'))
    && (p.user.None? ==> Free(p.host, p.port, '@') && Free(p.path, p.query, '@'))
    && ':' !in p.host && Free(p.host, p.port, '/') && '?' !in p.path
  }

  // ----- parsing what was composed -----

  lemma SeparatorAfter(protocol: string, rest: string)
    requires ':' !in protocol
    ensures Separator(protocol + "://" + rest) == |protocol|
  {
    var s := protocol + "://" + rest;
    assert AtSeparator(s, |protocol|);
    assert forall i | 0 <= i < |protocol| :: s[i] == protocol[i];
  }

  lemma CutSuffix(a: string, c: char, part: Option<string>)
    requires c !in a
    ensures Before(a + Suffix(c, part), c) == a && After(a + Suffix(c, part), c) == OrEmpty(part)
  {
    if part.Some? {
      assert a + Suffix(c, part) == a + [c] + part.value;
      Cut(a, c, part.value);
    } else {
      assert a + Suffix(c, part) == a;
      Uncut(a, c);
    }
  }

  lemma ProtocolParses(protocol: string, rest: string)
    requires ':' !in protocol
    ensures var url := protocol + "://" + rest;
            && Separator(url) == |protocol| < |url|
            && url[..|protocol|] == protocol && url[|protocol| + 3..] == rest
  {
    SeparatorAfter(protocol, rest);
  }

  lemma UserInfoParses(p: Parts, r: string)
    requires p.password.Some? ==> p.user.Some?
    requires if p.user.Some? then ':' !in p.user.value && Free(p.user.value, p.password, '@') else '@' !in r
    ensures var rest := UserInfo(p) + r;
            && Remainder(rest) == r
            && Before(Info(rest), ':') == OrEmpty(p.user) && After(Info(rest), ':') == OrEmpty(p.password)
  {
    var rest := UserInfo(p) + r;
    if p.user.Some? {
      var info := p.user.value + Suffix(':', p.password);
      assert '@' !in info;
      assert rest == info + ['@'] + r;
      Cut(info, '@', r);
      CutSuffix(p.user.value, ':', p.password);
    } else {
      assert rest == r;
    }
  }

  lemma AuthorityParses(p: Parts)
    requires ':' !in p.host && Free(p.host, p.port, '/')
    ensures var r := Authority(p) + "/" + Tail(p);
            && '/' in r && AuthorityOf(r) == Authority(p) && TailOf(r) == Tail(p)
  {
    var authority, tail := Authority(p), Tail(p);
    var r := authority + "/" + tail;
    assert r == authority + ['/'] + tail && r[|authority|] == '/';
    Cut(authority, '/', tail);
  }

  /** Parsing a composed URI returns its components, protocol and host in lower case. */
  lemma ComposedParses(p: Parts)
    requires ':' !in p.protocol && DelimiterFree(p)
    ensures Defined(Compose(p)) && Parsed(Compose(p)) == Expected(p, Compose(p))
  {
    var r := Authority(p) + "/" + Tail(p);
    ProtocolParses(p.protocol, UserInfo(p) + r);
    AuthorityParses(p);
    UserInfoParses(p, r);
    CutSuffix(p.host, ':', p.port);
    CutSuffix(p.path, '?', p.query);
  }

  /** Without a slash everything before the question mark is the path. */
  lemma BareParses(p: Parts)
    requires ':' !in p.protocol && DelimiterFree(p) && p.host == "" && p.port.None?
    requires Free(p.path, p.query, '/') && Tail(p) != [] && Tail(p)[0] != ':'
    ensures Defined(ComposeBare(p)) && Parsed(ComposeBare(p)) == Expected(p, ComposeBare(p))
  {
    ProtocolParses(p.protocol, UserInfo(p) + Tail(p));
    UserInfoParses(p, Tail(p));
    CutSuffix(p.path, '?', p.query);
  }

  // ----- composing what was parsed -----

  function OptionalAfter(s: string, c: char): Option<string> {
    if c in s then Some(After(s, c)) else None
  }

  /** The components of a text with a separator and a slash after it. */
  function Split(url: string): Parts
    requires Separator(url) < |url|
  {
    var k := Separator(url);
    var rest := url[k + 3..];
    SplitRest(url[..k], '@' in rest, Info(rest), Before(Remainder(rest), '/'), After(Remainder(rest), '/'))
  }

  function SplitRest(protocol: string, hasUser: bool, info: string, authority: string, tail: string): Parts {
    Parts(protocol,
          if hasUser then Some(Before(info, ':')) else None,
          if hasUser then OptionalAfter(info, ':') else None,
          Before(authority, ':'), OptionalAfter(authority, ':'), Before(tail, '?'), OptionalAfter(tail, '?'))
  }

  lemma Rejoin(s: string, c: char)
    ensures Before(s, c) + Suffix(c, OptionalAfter(s, c)) == s
    ensures OrEmpty(OptionalAfter(s, c)) == After(s, c)
  {
    Uncut(s, c);
  }

  lemma SplitRestComposes(protocol: string, hasUser: bool, info: string, authority: string, tail: string)
    ensures var p := SplitRest(protocol, hasUser, info, authority, tail);
            && UserInfo(p) == (if hasUser then info + "@" else "")
            && Authority(p) == authority && Tail(p) == tail
            && (hasUser ==> OrEmpty(p.user) == Before(info, ':') && OrEmpty(p.password) == After(info, ':'))
            && OrEmpty(p.port) == After(authority, ':') && OrEmpty(p.query) == After(tail, '?')
  {
    Rejoin(info, ':');
    Rejoin(authority, ':');
    Rejoin(tail, '?');
  }

  lemma SplitRestIsFree(protocol: string, hasUser: bool, info: string, authority: string, tail: string)
    requires hasUser ==> '@' !in info
    requires !hasUser ==> '@' !in authority && '@' !in tail
    requires '/' !in authority
    ensures DelimiterFree(SplitRest(protocol, hasUser, info, authority, tail))
  {
    Uncut(info, ':');
    BeforeIsFree(info, ':');
    Uncut(authority, ':');
    BeforeIsFree(authority, ':');
    Uncut(tail, '?');
    BeforeIsFree(tail, '?');
  }

  lemma SplitRestJoins(protocol: string, hasUser: bool, info: string, authority: string, tail: string)
    ensures Compose(SplitRest(protocol, hasUser, info, authority, tail))
         == protocol + "://" + ((if hasUser then info + "@" else "") + (authority + "/" + tail))
  {
    SplitRestComposes(protocol, hasUser, info, authority, tail);
  }

  lemma SplitRestParses(url: string, protocol: string, hasUser: bool, info: string, r: string)
    requires '/' in r && (!hasUser ==> info == "")
    ensures Expected(SplitRest(protocol, hasUser, info, Before(r, '/'), After(r, '/')), url)
         == ParsedRest(url, protocol, info, r)
  {
    SplitRestComposes(protocol, hasUser, info, Before(r, '/'), After(r, '/'));
  }

  lemma TextDecomposes(url: string, k: nat)
    requires k + 3 <= |url| && AtSeparator(url, k)
    requires '/' in Remainder(url[k + 3..])
    ensures var rest := url[k + 3..];
            var r := Remainder(rest);
            url == url[..k] + "://" + ((if '@' in rest then Info(rest) + "@" else "") + (Before(r, '/') + "/" + After(r, '/')))
  {
    var rest := url[k + 3..];
    RestDecomposes(rest);
    SeparatorDecomposes(url, k);
  }

  lemma SeparatorDecomposes(url: string, k: nat)
    requires k + 3 <= |url| && AtSeparator(url, k)
    ensures url == url[..k] + "://" + url[k + 3..]
  {
    assert url[k..][0] == url[k] && url[k..][1] == url[k + 1] && url[k..][2] == url[k + 2];
  }

  lemma RestDecomposes(rest: string)
    requires '/' in Remainder(rest)
    ensures var r := Remainder(rest);
            rest == (if '@' in rest then Info(rest) + "@" else "") + (Before(r, '/') + "/" + After(r, '/'))
  {
    var r := Remainder(rest);
    Uncut(rest, '@');
    Uncut(r, '/');
    assert r == Before(r, '/') + "/" + After(r, '/');
    if '@' in rest {
      assert rest == (Info(rest) + "@") + r;
    } else {
      assert rest == "" + r;
    }
  }

  lemma SlashIsDefined(url: string, k: nat)
    requires k == Separator(url) < |url| && '/' in Remainder(url[k + 3..])
    ensures Defined(url)
  {
    assert Remainder(url[k + 3..]) != [];
  }

  lemma SplitComposes(url: string, k: nat)
    requires k == Separator(url) < |url| && '/' in Remainder(url[k + 3..])
    ensures Compose(Split(url)) == url
  {
    var rest := url[k + 3..];
    var r := Remainder(rest);
    TextDecomposes(url, k);
    SplitRestJoins(url[..k], '@' in rest, Info(rest), Before(r, '/'), After(r, '/'));
  }

  lemma SplitParses(url: string, k: nat)
    requires k == Separator(url) < |url| && '/' in Remainder(url[k + 3..]) && Defined(url)
    ensures Parsed(url) == Expected(Split(url), url)
  {
    var rest := url[k + 3..];
    var r := Remainder(rest);
    SplitRestParses(url, url[..k], '@' in rest, Info(rest), r);
    calc {
      Parsed(url);
      ParsedRest(url, url[..k], Info(rest), r);
      Expected(SplitRest(url[..k], '@' in rest, Info(rest), Before(r, '/'), After(r, '/')), url);
      Expected(Split(url), url);
    }
  }

  lemma SplitIsFree(url: string, k: nat)
    requires k == Separator(url) < |url| && '/' in Remainder(url[k + 3..])
    ensures DelimiterFree(Split(url))
  {
    var rest := url[k + 3..];
    var r := Remainder(rest);
    PiecesAreFree(rest, r);
    BeforeIsFree(r, '/');
    SplitRestIsFree(url[..k], '@' in rest, Info(rest), Before(r, '/'), After(r, '/'));
  }

  /** Nothing is lost: any text with a separator and a slash in its remainder is composed of the
      components that parsing returned, and these are free of their delimiters. */
  lemma ParsedComposes(url: string)
    requires Separator(url) < |url| && '/' in Remainder(url[Separator(url) + 3..])
    ensures Compose(Split(url)) == url && DelimiterFree(Split(url))
    ensures Defined(url) && Parsed(url) == Expected(Split(url), url)
  {
    SlashIsDefined(url, Separator(url));
    SplitComposes(url, Separator(url));
    SplitParses(url, Separator(url));
    SplitIsFree(url, Separator(url));
  }

  lemma PiecesAreFree(rest: string, r: string)
    requires r == Remainder(rest) && '/' in r
    ensures '@' !in Info(rest)
    ensures '@' !in rest ==> '@' !in Before(r, '/') && '@' !in After(r, '/')
  {
    Uncut(r, '/');
    BeforeIsFree(rest, '@');
  }

  // ----- the object -----

  method FindChar(s: string, c: char, from: nat, to: nat) returns (k: nat)
    requires from <= to <= |s|
    ensures from <= k <= to && s[from..k] == Before(s[from..to], c)
    ensures (k < to <==> c in s[from..to]) && (k < to ==> s[k] == c && s[k + 1..to] == After(s[from..to], c))
  {
    k := from;
    while k < to && s[k] != c
      invariant from <= k <= to && c !in s[from..k]
    {
      k := k + 1;
    }
    if k < to {
      assert s[from..to] == s[from..k] + [c] + s[k + 1..to];
      Cut(s[from..k], c, s[k + 1..to]);
    } else {
      Uncut(s[from..to], c);
    }
  }

  method FindSeparator(s: string) returns (k: nat)
    ensures k == Separator(s)
  {
    k := 0;
    while k < |s| && !AtSeparator(s, k)
      invariant k <= |s| && SeparatorFrom(s, k) == Separator(s)
    {
      k := k + 1;
    }
  }

  class UriType {
    var value: string
    var protocol: string
    var user: string
    var password: string
    var host: string
    var port: string
    var path: string
    var query: string

    ghost function Contents(): Fields
      reads this
    {
      Fields(value, protocol, user, password, host, port, path, query)
    }

    constructor (url: string)
      requires Defined(url)
      ensures Contents() == Parsed(url)
    {
      value, protocol, user, password, host, port, path, query := "", "", "", "", "", "", "", "";
      new;
      Parse(url);
      ReparsedIff(BLANK, url);
    }

    /** Protocol and host are appended to, and fields whose part is absent keep their old value. */
    method Parse(url: string)
      requires Defined(url)
      modifies this
      ensures Contents() == Reparsed(old(Contents()), url)
    {
      value := url;
      var sep := FindSeparator(url);
      protocol := protocol + Lower(url[..sep]);
      if sep == |url| {
        assert url[..sep] == url;
        return;
      }
      DefinedRest(url, sep);
      ParseAfterSeparator(url, sep + 3);
    }

    method ParseAfterSeparator(url: string, start: nat)
      requires start <= |url| && Remainder(url[start..]) != []
      requires '/' in Remainder(url[start..]) || Remainder(url[start..])[0] != ':'
      modifies this`user, this`password, this`host, this`port, this`path, this`query
      ensures Contents() == ReparsedRest(old(Contents()), url[start..])
    {
      ghost var r := Remainder(url[start..]);
      var pos := ParseUser(url, start);
      assert url[pos..][0] == url[pos];
      ParseTarget(url, pos);
      assert url[pos..] == r;
    }

    /** User and password, if there is an `@`; returns where the remainder starts. */
    method ParseUser(url: string, start: nat) returns (pos: nat)
      requires start <= |url|
      modifies this`user, this`password
      ensures start <= pos <= |url| && url[pos..] == Remainder(url[start..])
      ensures '@' !in url[start..] ==> user == old(user) && password == old(password)
      ensures '@' in url[start..] ==> user == Before(Info(url[start..]), ':')
      ensures ':' in Info(url[start..]) ==> password == After(Info(url[start..]), ':')
      ensures ':' !in Info(url[start..]) ==> password == old(password)
    {
      pos := start;
      assert url[start..|url|] == url[start..];
      var userI := FindChar(url, '@', pos, |url|);
      if userI != |url| {
        var pwdI := FindChar(url, ':', pos, userI);
        Uncut(url[pos..userI], ':');
        if pwdI != userI {
          password := url[pwdI + 1..userI];
          user := url[pos..pwdI];
        } else {
          user := url[pos..userI];
        }
        pos := userI + 1;
        assert url[pos..|url|] == url[pos..];
      }
    }

    /** Host, port, path and query of the remainder. */
    method ParseTarget(url: string, pos: nat)
      requires pos < |url| && ('/' in url[pos..] || url[pos] != ':')
      modifies this`host, this`port, this`path, this`query
      ensures host == old(host) + Lower(Before(AuthorityOf(url[pos..]), ':'))
      ensures port == After(AuthorityOf(url[pos..]), ':')
      ensures path == Before(TailOf(url[pos..]), '?') && query == After(TailOf(url[pos..]), '?')
    {
      var pathI, from := FindPath(url, pos);
      var name, number := CutAuthority(url, pos, pathI);
      port := number;
      host := host + Lower(name);
      var queryI := FindChar(url, '?', from, |url|);
      assert url[from..|url|] == url[from..];
      Uncut(url[from..], '?');
      path := url[from..queryI];
      if queryI != |url| {
        queryI := queryI + 1;
      }
      query := url[queryI..|url|];
    }
  }

  /** Where the authority ends and the path starts; both at the start if there is no slash. */
  method FindPath(url: string, pos: nat) returns (pathI: nat, from: nat)
    requires pos < |url|
    ensures pos <= pathI < |url| && pathI <= from <= |url|
    ensures url[pos..pathI] == AuthorityOf(url[pos..]) && url[from..] == TailOf(url[pos..])
    ensures if '/' in url[pos..] then url[pathI] == '/' else pathI == pos
  {
    assert url[pos..|url|] == url[pos..];
    pathI := FindChar(url, '/', pos, |url|);
    if pathI == |url| {
      pathI := pos;
    }
    from := if url[pathI] == '/' then pathI + 1 else pathI;
    assert url[from..|url|] == url[from..];
  }

  /** Host and port of the authority between two positions. */
  method CutAuthority(url: string, pos: nat, pathI: nat) returns (name: string, number: string)
    requires pos <= pathI < |url| && url[pathI] != ':'
    ensures name == Before(url[pos..pathI], ':') && number == After(url[pos..pathI], ':')
  {
    var portI := FindChar(url, ':', pos, pathI);
    Uncut(url[pos..pathI], ':');
    number := url[if url[portI] == ':' then portI + 1 else portI..pathI];
    name := url[pos..portI];
  }
}
