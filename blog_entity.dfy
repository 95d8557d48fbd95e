/**
 * `TableBloggerBlogsRawSqlEntity`: a blog row and the per-field constraints
 * its class-validator decorators declare, stated as a validity predicate.
 * The `websiteUrl` pattern
 * `^https://([a-zA-Z0-9_-]+\.)+[a-zA-Z0-9_-]+(\/[a-zA-Z0-9_-]+)*\/?$`
 * is recognised by `UrlMatches` and generated by `Url`; the two agree.
 */
module BlogEntity {
  import opened Wrappers
  import opened Text

  /**
   * A blog row, with the fields the blog builder writes. Ban date and ban
   * reason are SQL NULL (`None`) until the blog is banned.
   */
  datatype Blog = Blog(
    id: string,
    name: string,
    description: string,
    websiteUrl: string,
    createdAt: string,
    isMembership: bool,
    blogOwnerId: string,
    blogOwnerLogin: string,
    blogOwnerBanStatus: bool,
    banInfoBanStatus: bool,
    banInfoBanDate: Option<string>,
    banInfoBanReason: Option<string>)

  /** `@IsNotEmpty()` with `@Length(min, max)`: a string, not empty, of length min..max. */
  predicate LengthIn(s: string, min: nat, max: nat)
  {
    s != [] && min <= |s| <= max
  }

  /** A character of the class `[a-zA-Z0-9_-]`. */
  predicate IsWordChar(c: char)
  {
    ('a' <= c <= 'z') || ('A' <= c <= 'Z') || ('0' <= c <= '9') || c == '_' || c == '-'
  }

  /** `[a-zA-Z0-9_-]+` */
  predicate IsWord(s: string)
  {
    |s| > 0 && forall i :: 0 <= i < |s| ==> IsWordChar(s[i])
  }

  const Scheme := "https://"

  /** The index of the first `/` in `s`, or `|s|` when there is none. */
  function FirstSlash(s: string): (k: nat)
    ensures k <= |s|
    ensures '/' !in s[..k]
    ensures k < |s| ==> s[k] == '/'
  {
    if s == [] then 0
    else if s[0] == '/' then 0
    else
      var k := 1 + FirstSlash(s[1..]);
      assert s[..k] == [s[0]] + s[1..][..k - 1];
      k
  }

  /** `([a-zA-Z0-9_-]+\.)+[a-zA-Z0-9_-]+`: at least two dot-separated words. */
  predicate IsHost(h: string)
  {
    var labels := Split(h, '.');
    |labels| >= 2 && forall i :: 0 <= i < |labels| ==> IsWord(labels[i])
  }

  /** `(\/[a-zA-Z0-9_-]+)*\/?`: slash-led words, then at most one trailing slash. */
  predicate IsPath(p: string)
  {
    p == [] ||
    (p[0] == '/' &&
     var q := p[1..];
     q == [] ||
     (var body := if q[|q| - 1] == '/' then q[..|q| - 1] else q;
      var segments := Split(body, '/');
      forall i :: 0 <= i < |segments| ==> IsWord(segments[i])))
  }

  /** The `websiteUrl` pattern, anchored at both ends. */
  predicate UrlMatches(s: string)
  {
    |s| >= |Scheme| && s[..|Scheme|] == Scheme &&
    var rest := s[|Scheme|..];
    var k := FirstSlash(rest);
    IsHost(rest[..k]) && IsPath(rest[k..])
  }

  /** `/s1/s2/.../sn` */
  function PathOf(segments: seq<string>): string
  {
    if segments == [] then [] else "/" + segments[0] + PathOf(segments[1..])
  }

  /** The path of a URL: its segments, then the optional trailing slash. */
  function PathPart(segments: seq<string>, trailingSlash: bool): string
  {
    PathOf(segments) + (if trailingSlash then "/" else "")
  }

  /** The URL the pattern describes: host labels, path segments and an optional trailing slash. */
  function Url(labels: seq<string>, segments: seq<string>, trailingSlash: bool): string
    requires |labels| >= 1
  {
    Scheme + (Join(labels, '.') + PathPart(segments, trailingSlash))
  }

  /** The shape of a URL the pattern accepts. */
  predicate WellFormedParts(labels: seq<string>, segments: seq<string>)
  {
    |labels| >= 2
    && (forall i :: 0 <= i < |labels| ==> IsWord(labels[i]))
    && (forall i :: 0 <= i < |segments| ==> IsWord(segments[i]))
  }

  /** The constraints the entity's decorators declare, field by field. */
  predicate ValidBlog(b: Blog)
  {
    LengthIn(b.id, 0, 100)
    && LengthIn(b.name, 0, 15)
    && LengthIn(b.description, 0, 500)
    && LengthIn(b.websiteUrl, 0, 100) && UrlMatches(b.websiteUrl)
    && LengthIn(b.createdAt, 0, 100)
    && LengthIn(b.blogOwnerId, 0, 100)
    && LengthIn(b.blogOwnerLogin, 3, 10)
    && (forall i :: 0 <= i < |b.blogOwnerLogin| ==> IsWordChar(b.blogOwnerLogin[i]))
    && b.banInfoBanDate.Some? && LengthIn(b.banInfoBanDate.value, 0, 100)
    && b.banInfoBanReason.Some? && LengthIn(b.banInfoBanReason.value, 20, 300)
  }

  /** The bounds `ValidBlog` puts on each field, read back. */
  lemma ValidBlogBounds(b: Blog)
    requires ValidBlog(b)
    ensures 1 <= |b.name| <= 15 && 1 <= |b.description| <= 500
    ensures 1 <= |b.id| <= 100 && 1 <= |b.blogOwnerId| <= 100
    ensures 3 <= |b.blogOwnerLogin| <= 10
    ensures |Scheme| < |b.websiteUrl| <= 100
    ensures b.banInfoBanReason.Some? && 20 <= |b.banInfoBanReason.value| <= 300
  {
    var rest := b.websiteUrl[|Scheme|..];
    var k := FirstSlash(rest);
    assert |Split(rest[..k], '.')| >= 2;
    assert rest != [];
  }

  /** A blog whose ban reason is NULL, as every new blog's is, fails the constraints. */
  lemma NullBanReasonInvalid(b: Blog)
    requires b.banInfoBanReason.None?
    ensures !ValidBlog(b)
  {
  }

  lemma {:induction false} PathOfShape(segments: seq<string>)
    requires |segments| >= 1
    ensures PathOf(segments) == "/" + Join(segments, '/')
  {
    if |segments| > 1 {
      PathOfShape(segments[1..]);
    }
  }

  lemma {:induction false} JoinExcludes(fields: seq<string>, sep: char, c: char)
    requires |fields| >= 1 && c != sep
    requires forall i :: 0 <= i < |fields| ==> c !in fields[i]
    ensures c !in Join(fields, sep)
  {
    if |fields| > 1 {
      JoinExcludes(fields[1..], sep, c);
    }
  }

  lemma {:induction false} JoinEndsLikeLast(fields: seq<string>, sep: char)
    requires |fields| >= 1 && |fields[|fields| - 1]| > 0
    ensures |Join(fields, sep)| > 0
    ensures Join(fields, sep)[|Join(fields, sep)| - 1] == fields[|fields| - 1][|fields[|fields| - 1]| - 1]
  {
    if |fields| > 1 {
      JoinEndsLikeLast(fields[1..], sep);
    }
  }

  lemma WordsExclude(fields: seq<string>, c: char)
    requires forall i :: 0 <= i < |fields| ==> IsWord(fields[i])
    requires !IsWordChar(c)
    ensures forall i :: 0 <= i < |fields| ==> c !in fields[i]
  {
    forall i | 0 <= i < |fields|
      ensures c !in fields[i]
    {
      assert forall j :: 0 <= j < |fields[i]| ==> fields[i][j] != c;
    }
  }

  lemma {:induction false} FirstSlashOfConcat(a: string, b: string)
    requires '/' !in a
    requires b == [] || b[0] == '/'
    ensures FirstSlash(a + b) == |a|
  {
    if a == [] {
      assert a + b == b;
    } else {
      assert a[0] in a;
      assert (a + b)[1..] == a[1..] + b;
      FirstSlashOfConcat(a[1..], b);
    }
  }

  /** The path part of a URL with at least one segment: the segments joined by `/`, then the slash. */
  lemma PathBody(segments: seq<string>, trailingSlash: bool)
    requires |segments| >= 1
    requires forall i :: 0 <= i < |segments| ==> IsWord(segments[i])
    ensures var p := PathPart(segments, trailingSlash);
            |p| > 1 && p[0] == '/' &&
            var q := p[1..];
            (if q[|q| - 1] == '/' then q[..|q| - 1] else q) == Join(segments, '/')
  {
    PathOfShape(segments);
    var joined := Join(segments, '/');
    assert IsWord(segments[|segments| - 1]);
    JoinEndsLikeLast(segments, '/');
    assert joined[|joined| - 1] != '/';
    var p := PathPart(segments, trailingSlash);
    assert p == "/" + (joined + (if trailingSlash then "/" else ""));
    var q := p[1..];
    assert q == joined + (if trailingSlash then "/" else "");
    if trailingSlash {
      assert q[..|q| - 1] == joined;
    } else {
      assert q[|q| - 1] == joined[|joined| - 1];
    }
  }

  /** A well-formed path with its optional trailing slash is accepted. */
  lemma PathSound(segments: seq<string>, trailingSlash: bool)
    requires forall i :: 0 <= i < |segments| ==> IsWord(segments[i])
    ensures IsPath(PathPart(segments, trailingSlash))
  {
    if segments != [] {
      PathBody(segments, trailingSlash);
      WordsExclude(segments, '/');
      SplitJoin(segments, '/');
    }
  }

  /** Every URL built from well-formed parts matches the pattern. */
  lemma UrlSound(labels: seq<string>, segments: seq<string>, trailingSlash: bool)
    requires WellFormedParts(labels, segments)
    ensures UrlMatches(Url(labels, segments, trailingSlash))
  {
    var s := Url(labels, segments, trailingSlash);
    var host := Join(labels, '.');
    var path := PathPart(segments, trailingSlash);
    assert s == Scheme + (host + path);
    var rest := s[|Scheme|..];
    assert rest == host + path;
    WordsExclude(labels, '/');
    WordsExclude(labels, '.');
    JoinExcludes(labels, '.', '/');
    if segments != [] {
      PathOfShape(segments);
    }
    FirstSlashOfConcat(host, path);
    assert rest[..|host|] == host && rest[|host|..] == path;
    SplitJoin(labels, '.');
    PathSound(segments, trailingSlash);
  }

  /** Every accepted path is a well-formed path with an optional trailing slash. */
  lemma PathComplete(p: string) returns (segments: seq<string>, trailingSlash: bool)
    requires IsPath(p)
    ensures forall i :: 0 <= i < |segments| ==> IsWord(segments[i])
    ensures p == PathPart(segments, trailingSlash)
  {
    if p == [] {
      return [], false;
    }
    var q := p[1..];
    if q == [] {
      assert p == "/";
      return [], true;
    }
    trailingSlash := q[|q| - 1] == '/';
    var body := if trailingSlash then q[..|q| - 1] else q;
    var tail := if trailingSlash then "/" else "";
    assert q == body + tail;
    segments := Split(body, '/');
    JoinSplit(body, '/');
    PathOfShape(segments);
    assert PathPart(segments, trailingSlash) == ("/" + body) + tail;
    assert p == "/" + q;
  }

  /** Every string the pattern accepts is a URL built from well-formed parts. */
  lemma UrlComplete(s: string) returns (labels: seq<string>, segments: seq<string>, trailingSlash: bool)
    requires UrlMatches(s)
    ensures WellFormedParts(labels, segments)
    ensures s == Url(labels, segments, trailingSlash)
  {
    var rest := s[|Scheme|..];
    var k := FirstSlash(rest);
    var host, path := rest[..k], rest[k..];
    labels := HostComplete(host);
    segments, trailingSlash := PathComplete(path);
    assert rest == host + path;
    assert s == Scheme + rest;
  }

  /** Every accepted host is two or more word labels joined by dots. */
  lemma HostComplete(h: string) returns (labels: seq<string>)
    requires IsHost(h)
    ensures |labels| >= 2 && forall i :: 0 <= i < |labels| ==> IsWord(labels[i])
    ensures Join(labels, '.') == h
  {
    labels := Split(h, '.');
    JoinSplit(h, '.');
  }
}
