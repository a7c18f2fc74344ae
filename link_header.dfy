/**
 * `parse_next_url`: the tracker's reading of a Mastodon `Link` response
 * header (a simplified reading of the header of section 3 of RFC 8288).
 */
module LinkHeader {
  import opened Wrappers
  import opened Text

  /** What `parse_next_url` does with a header. */
  datatype Parsed =
    | NoNext            // returns nil: the loop ends
    | Next(url: string) // returns the URL of the next page
    | NoUrl             // `match(...)` is nil and `[1]` raises NoMethodError

  const RelNext: string := "rel=\"next\""

  /** The capture of `/<([^>]+)>/` when the match starts at `p`: up to the first `>`. */
  function CaptureAt(s: string, p: nat): (c: Option<string>)
    requires p < |s|
    ensures c.Some? ==> s[p] == '<' && |c.value| > 0 && '>' !in c.value
    ensures c.Some? ==> p + 1 + |c.value| < |s| && s[p + 1..p + 1 + |c.value|] == c.value
    ensures c.Some? ==> s[p + 1 + |c.value|] == '>'
  {
    if s[p] != '<' || '>' !in s[p + 1..] then None
    else
      var q := IndexOf(s[p + 1..], '>');
      if q == 0 then None else Some(s[p + 1..][..q])
  }

  /** The regex engine tries start positions left to right; the first that matches wins. */
  function FirstCapture(s: string, p: nat): (c: Option<string>)
    requires p <= |s|
    decreases |s| - p
  {
    if p == |s| then None
    else if CaptureAt(s, p).Some? then CaptureAt(s, p)
    else FirstCapture(s, p + 1)
  }

  /**
   * The capture found is the one of the leftmost start position from `p` on
   * where the pattern matches, and there is none exactly when the pattern
   * matches at no position.
   */
  lemma {:induction false} FirstCaptureIsLeftmost(s: string, p: nat)
    requires p <= |s|
    ensures FirstCapture(s, p).None? <==> forall q :: p <= q < |s| ==> CaptureAt(s, q).None?
    ensures FirstCapture(s, p).Some? ==>
              exists q :: p <= q < |s| && CaptureAt(s, q) == FirstCapture(s, p) &&
                          forall j :: p <= j < q ==> CaptureAt(s, j).None?
    decreases |s| - p
  {
    if p < |s| && CaptureAt(s, p).None? {
      FirstCaptureIsLeftmost(s, p + 1);
    }
  }

  /** The first of the comma-separated parts that mentions `rel="next"`. */
  function FindNext(parts: seq<string>): (r: Option<nat>)
    ensures r.Some? ==> r.value < |parts| && Includes(parts[r.value], RelNext)
    ensures r.Some? ==> forall k :: 0 <= k < r.value ==> !Includes(parts[k], RelNext)
    ensures r.None? ==> forall k :: 0 <= k < |parts| ==> !Includes(parts[k], RelNext)
  {
    if parts == [] then None
    else if Includes(parts[0], RelNext) then Some(0)
    else match FindNext(parts[1..])
      case None => None
      case Some(k) => Some(k + 1)
  }

  function ParseNextUrl(header: Option<string>): (r: Parsed)
    ensures header.None? ==> r == NoNext
    ensures header.Some? ==>
              (r == NoNext <==> forall p :: p in RubySplit(header.value, ',') ==> !Includes(p, RelNext))
    ensures header.Some? && FindNext(RubySplit(header.value, ',')).Some? ==>
              var part := RubySplit(header.value, ',')[FindNext(RubySplit(header.value, ',')).value];
              (r == NoUrl <==> FirstCapture(part, 0).None?) &&
              (r.Next? ==> Some(r.url) == FirstCapture(part, 0))
  {
    match header
    case None => NoNext
    case Some(h) =>
      var parts := RubySplit(h, ',');
      match FindNext(parts)
      case None => NoNext
      case Some(k) =>
        assert parts[k] in parts;
        match FirstCapture(parts[k], 0)
        case None => NoUrl
        case Some(url) => Next(url)
  }

  /** One `<url>; rel="…"` entry of a header, after optional leading padding. */
  datatype Link = Link(pad: string, url: string, rel: string)

  function FormatLink(l: Link): string {
    l.pad + "<" + l.url + ">; rel=\"" + l.rel + "\""
  }

  function FormatLinks(links: seq<Link>): (parts: seq<string>)
    ensures |parts| == |links|
    ensures forall i :: 0 <= i < |links| ==> parts[i] == FormatLink(links[i])
  {
    if links == [] then [] else [FormatLink(links[0])] + FormatLinks(links[1..])
  }

  /** The entries a server may emit: nothing in them collides with `,`, `<`, `>` or `"`. */
  predicate WellFormed(l: Link) {
    |l.url| > 0 &&
    (forall c :: c in l.pad ==> c != '<' && c != ',' && c != '"') &&
    (forall c :: c in l.url ==> c != '>' && c != ',' && c != '"') &&
    (forall c :: c in l.rel ==> c != ',' && c != '"')
  }

  /** The first entry whose relation is exactly `next`. */
  function FirstNextUrl(links: seq<Link>): Option<string> {
    if links == [] then None
    else if links[0].rel == "next" then Some(links[0].url)
    else FirstNextUrl(links[1..])
  }

  /** Where each piece of a formatted entry `s` of `l` sits. */
  predicate Layout(s: string, l: Link) {
    var a, u, r := |l.pad|, |l.url|, |l.rel|;
    |s| == a + u + r + 10 &&
    (forall k :: 0 <= k < a ==> s[k] == l.pad[k]) &&
    s[a] == '<' &&
    (forall k :: 0 <= k < u ==> s[a + 1 + k] == l.url[k]) &&
    s[a + 1 + u..a + u + 9] == ">; rel=\"" &&
    (forall k :: 0 <= k < r ==> s[a + u + 9 + k] == l.rel[k]) &&
    s[a + u + 9 + r] == '"'
  }

  lemma LinkLayout(l: Link)
    ensures Layout(FormatLink(l), l)
  {
    var s, a, u := FormatLink(l), |l.pad|, |l.url|;
    assert s[a + 1 + u..a + u + 9] == ">; rel=\"";
  }

  /** A well-formed entry has its only quotes around the relation and no comma. */
  lemma QuotesOfLayout(s: string, l: Link, j: nat)
    requires WellFormed(l) && Layout(s, l) && j < |s|
    ensures s[j] == '"' ==> j == |l.pad| + |l.url| + 8 || j == |l.pad| + |l.url| + 9 + |l.rel|
    ensures s[j] != ','
  {
    var a, u, r := |l.pad|, |l.url|, |l.rel|;
    if j < a {
      assert s[j] == l.pad[j] && l.pad[j] in l.pad;
    } else if j == a {
    } else if j < a + 1 + u {
      assert s[j] == l.url[j - a - 1] && l.url[j - a - 1] in l.url;
    } else if j < a + u + 9 {
      assert s[j] == s[a + 1 + u..a + u + 9][j - a - 1 - u];
    } else if j < a + u + 9 + r {
      assert s[j] == l.rel[j - a - u - 9] && l.rel[j - a - u - 9] in l.rel;
    }
  }

  lemma MentionsNextIffLayout(s: string, l: Link)
    requires WellFormed(l) && Layout(s, l)
    ensures Includes(s, RelNext) <==> l.rel == "next"
  {
    var a, u := |l.pad|, |l.url|;
    IncludesIff(s, RelNext);
    if l.rel == "next" {
      NextOccurs(s, l);
    }
    if Includes(s, RelNext) {
      var i :| OccursAt(s, RelNext, i);
      assert s[i + 4] == RelNext[4] == '"';
      assert s[i + 9] == RelNext[9] == '"';
      QuotesOfLayout(s, l, i + 4);
      QuotesOfLayout(s, l, i + 9);
      assert |l.rel| == 4;
      assert forall k :: 0 <= k < 4 ==> l.rel[k] == s[i + 5 + k] == RelNext[5 + k];
      assert l.rel == RelNext[5..9];
    }
  }

  lemma NextOccurs(s: string, l: Link)
    requires Layout(s, l) && l.rel == "next"
    ensures OccursAt(s, RelNext, |l.pad| + |l.url| + 4)
  {
    var b := |l.pad| + |l.url| + 1;
    var mid := s[b..b + 8];
    assert mid == ">; rel=\"";
    assert s[b + 3] == mid[3] == 'r';
    assert s[b + 4] == mid[4] == 'e';
    assert s[b + 5] == mid[5] == 'l';
    assert s[b + 6] == mid[6] == '=';
    assert s[b + 7] == mid[7] == '"';
    assert s[b + 8] == l.rel[0] == 'n';
    assert s[b + 9] == l.rel[1] == 'e';
    assert s[b + 10] == l.rel[2] == 'x';
    assert s[b + 11] == l.rel[3] == 't';
    assert s[b + 3..b + 13] == RelNext;
  }

  /** A well-formed entry mentions `rel="next"` exactly when its relation is `next`. */
  lemma MentionsNextIff(l: Link)
    requires WellFormed(l)
    ensures Includes(FormatLink(l), RelNext) <==> l.rel == "next"
  {
    LinkLayout(l);
    MentionsNextIffLayout(FormatLink(l), l);
  }

  lemma CaptureOfLayout(s: string, l: Link)
    requires WellFormed(l) && Layout(s, l)
    ensures FirstCapture(s, 0) == Some(l.url)
  {
    var a, u := |l.pad|, |l.url|;
    forall p | 0 <= p < a ensures FirstCapture(s, p) == FirstCapture(s, p + 1) {
      assert s[p] == l.pad[p] && l.pad[p] in l.pad;
    }
    SkipPad(s, a, a);
    var rest := s[a + 1..];
    assert rest[u] == s[a + 1 + u..a + u + 9][0] == '>';
    forall k | 0 <= k < u ensures rest[k] != '>' {
      assert rest[k] == l.url[k] && l.url[k] in l.url;
    }
    IndexOfFirst(rest, '>', u);
    assert rest[..u] == l.url;
    assert CaptureAt(s, a) == Some(l.url);
  }

  /** The URL of a well-formed entry is what `/<([^>]+)>/` captures from it. */
  lemma CaptureOfLink(l: Link)
    requires WellFormed(l)
    ensures FirstCapture(FormatLink(l), 0) == Some(l.url)
  {
    LinkLayout(l);
    CaptureOfLayout(FormatLink(l), l);
  }

  lemma {:induction false} SkipPad(s: string, a: nat, p: nat)
    requires a <= |s| && p <= a
    requires forall k :: 0 <= k < a ==> FirstCapture(s, k) == FirstCapture(s, k + 1)
    ensures FirstCapture(s, 0) == FirstCapture(s, p)
  {
    if p > 0 {
      SkipPad(s, a, p - 1);
    }
  }

  lemma IndexOfFirst(s: string, c: char, k: nat)
    requires k < |s| && s[k] == c
    requires forall j :: 0 <= j < k ==> s[j] != c
    ensures IndexOf(s, c) == k
  {
    var i := IndexOf(s, c);
    assert i <= k;
  }

  /**
   * Round trip: for a header a server builds from well-formed entries,
   * `parse_next_url` yields the URL of the first entry whose relation is
   * `next`, and nil when there is none.
   */
  lemma {:induction false} ParseFormattedHeader(links: seq<Link>)
    requires |links| > 0
    requires forall i :: 0 <= i < |links| ==> WellFormed(links[i])
    ensures ParseNextUrl(Some(Join(FormatLinks(links), ','))) ==
              match FirstNextUrl(links)
              case None => NoNext
              case Some(u) => Next(u)
  {
    var parts := FormatLinks(links);
    forall p | p in parts ensures ',' !in p {
      var i :| 0 <= i < |parts| && parts[i] == p;
      NoCommaInLink(links[i]);
    }
    assert parts[|parts| - 1] == FormatLink(links[|links| - 1]);
    RubySplitJoin(parts, ',');
    FindNextOfLinks(links);
  }

  lemma NoCommaInLink(l: Link)
    requires WellFormed(l)
    ensures ',' !in FormatLink(l)
  {
    var s := FormatLink(l);
    LinkLayout(l);
    forall j | 0 <= j < |s| ensures s[j] != ',' {
      QuotesOfLayout(s, l, j);
    }
  }

  lemma {:induction false} FindNextOfLinks(links: seq<Link>)
    requires forall i :: 0 <= i < |links| ==> WellFormed(links[i])
    ensures match FirstNextUrl(links)
            case None => FindNext(FormatLinks(links)).None?
            case Some(u) => FindNext(FormatLinks(links)).Some? &&
                            FirstCapture(FormatLinks(links)[FindNext(FormatLinks(links)).value], 0) == Some(u)
  {
    if links != [] {
      var parts := FormatLinks(links);
      MentionsNextIff(links[0]);
      assert FormatLinks(links[1..]) == parts[1..];
      if links[0].rel == "next" {
        CaptureOfLink(links[0]);
      } else {
        FindNextOfLinks(links[1..]);
      }
    }
  }
}
