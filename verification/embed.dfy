/**
  The embed-URL normaliser of the section model (`validateAndParseEmbed` in
  api/models/Section.js). Three fixed, unanchored, case-sensitive regular
  expressions are tried in the order YouTube, Vimeo, SoundCloud; the first
  that matches anywhere in the URL rewrites it into an iframe URL.

  Each regular expression is modelled by a hand-written matcher that follows
  JavaScript's backtracking order: the leftmost starting position wins, the
  alternatives of a group are tried left to right, and a greedy quantifier
  tries its longest extent first.
*/
module Embed {
  import opened Wrappers
  import opened Js

  datatype Platform = YouTube | Vimeo | SoundCloud {
    /** The `type` tag of a successful result. */
    function Name(): string {
      match this
      case YouTube => "youtube"
      case Vimeo => "vimeo"
      case SoundCloud => "soundcloud"
    }

    /** Position in the pattern table; smaller is tried first. */
    function Rank(): nat {
      match this
      case YouTube => 0
      case Vimeo => 1
      case SoundCloud => 2
    }
  }

  /** The pattern table, in declaration order. */
  const Patterns: seq<Platform> := [YouTube, Vimeo, SoundCloud]

  /** The result object: `{isValid: true, embedUrl, type, originalUrl}` or
      `{isValid: false, error}`. */
  datatype EmbedValidation =
    | Valid(embedUrl: string, platform: Platform, originalUrl: string)
    | Invalid(error: string)
  {
    predicate IsValid() { Valid? }
  }

  const UnsupportedMessage := "Unsupported embed URL. Supported platforms: YouTube, Vimeo, SoundCloud"

  const YouTubePrefix := "https://www.youtube.com/embed/"
  const YouTubeSuffix := "?rel=0"
  const VimeoPrefix := "https://player.vimeo.com/video/"
  const VimeoSuffix := "?title=0&byline=0&portrait=0"
  const SoundCloudPrefix := "https://w.soundcloud.com/player/?url="
  const SoundCloudSuffix := "&color=%23ff5500&auto_play=false&hide_related=false&show_comments=true&show_user=true&show_reposts=false&show_teaser=true"

  // ---------------------------------------------------------------------
  // YouTube:
  //   (?:youtube\.com\/(?:[^\/]+\/.+\/|(?:v|e(?:mbed)?)\/|.*[?&]v=)|youtu\.be\/)([^"&?\/\s]{11})

  const IdLength := 11

  /** `[^"&?\/\s]` */
  predicate IsIdChar(c: char) {
    c != '"' && c != '&' && c != '?' && c != '/' && !IsWhitespace(c)
  }

  predicate IsVideoId(id: string) {
    |id| == IdLength && forall j :: 0 <= j < |id| ==> IsIdChar(id[j])
  }

  /** Eleven id characters start at `k`. */
  predicate IdAt(url: string, k: nat) {
    k + IdLength <= |url| && IsVideoId(url[k..k + IdLength])
  }

  /** The characters `.` does not match. */
  predicate IsLineTerminator(c: char) {
    c == '\n' || c == '\r' || c as int == 0x2028 || c as int == 0x2029
  }

  /** The first `/` at or after `i`, or the length of `url`. */
  function NextSlash(url: string, i: nat): (j: nat)
    ensures i <= j || j == |url|
    ensures j <= |url|
    ensures j < |url| ==> url[j] == '/'
    ensures forall k :: i <= k < j ==> url[k] != '/'
    decreases |url| - i
  {
    if i >= |url| then |url|
    else if url[i] == '/' then i
    else NextSlash(url, i + 1)
  }

  /** The first line terminator at or after `i`, or the length of `url`:
      `.` can extend from `i` up to, not including, this position. */
  function LineEnd(url: string, i: nat): (j: nat)
    ensures i <= j || j == |url|
    ensures j <= |url|
    ensures forall k :: i <= k < j ==> !IsLineTerminator(url[k])
    decreases |url| - i
  {
    if i >= |url| then |url|
    else if IsLineTerminator(url[i]) then i
    else LineEnd(url, i + 1)
  }

  /** `.+\/` followed by an id, `.+` greedy: the largest `k` in `[lo, hi)`
      with a `/` at `k` and an id after it; the id's start is returned. */
  function SlashThenId(url: string, lo: nat, hi: nat): (r: Option<nat>)
    requires hi <= |url|
    ensures r.Some? ==> lo + 1 <= r.value <= hi && url[r.value - 1] == '/' && IdAt(url, r.value)
    decreases hi
  {
    if hi <= lo then None
    else if url[hi - 1] == '/' && IdAt(url, hi) then Some(hi)
    else SlashThenId(url, lo, hi - 1)
  }

  /** `.*[?&]v=` followed by an id, `.*` greedy: the largest `k` in
      `[lo, hi)` with `?` or `&` at `k`, then `v=` and an id. */
  function QueryThenId(url: string, lo: nat, hi: nat): (r: Option<nat>)
    requires hi <= |url|
    ensures r.Some? ==> lo + 3 <= r.value <= |url| && (url[r.value - 3] == '?' || url[r.value - 3] == '&')
    ensures r.Some? ==> OccursAt(url, "v=", r.value - 2) && IdAt(url, r.value)
    decreases hi
  {
    if hi <= lo then None
    else if (url[hi - 1] == '?' || url[hi - 1] == '&') && OccursAt(url, "v=", hi) && IdAt(url, hi + 2) then Some(hi + 2)
    else QueryThenId(url, lo, hi - 1)
  }

  /** Where the captured id starts when the YouTube pattern matches at `i`. */
  function YouTubeIdStart(url: string, i: nat): (r: Option<nat>)
    ensures r.Some? ==> IdAt(url, r.value)
  {
    if OccursAt(url, "youtube.com/", i) then
      var p := i + 12;
      var j := NextSlash(url, p);
      var path := if p < j < |url| then SlashThenId(url, j + 2, LineEnd(url, j + 1)) else None;
      if path.Some? then path
      else if OccursAt(url, "v/", p) && IdAt(url, p + 2) then Some(p + 2)
      else if OccursAt(url, "embed/", p) && IdAt(url, p + 6) then Some(p + 6)
      else if OccursAt(url, "e/", p) && IdAt(url, p + 2) then Some(p + 2)
      else QueryThenId(url, p, LineEnd(url, p))
    else if OccursAt(url, "youtu.be/", i) && IdAt(url, i + 9) then Some(i + 9)
    else None
  }

  /** `match[1]` of the YouTube pattern matched at `i`: the video id. */
  function YouTubeAt(url: string, i: nat): (r: Option<string>)
    ensures r.Some? ==> IsVideoId(r.value)
  {
    var k := YouTubeIdStart(url, i);
    if k.Some? then Some(url[k.value..k.value + IdLength]) else None
  }

  // ---------------------------------------------------------------------
  // Vimeo:  (?:vimeo\.com\/)([0-9]+)

  /** The first non-digit at or after `i`, or the length of `url`. */
  function DigitRunEnd(url: string, i: nat): (j: nat)
    requires i <= |url|
    ensures i <= j <= |url|
    ensures forall k :: i <= k < j ==> IsDigit(url[k])
    ensures j < |url| ==> !IsDigit(url[j])
    decreases |url| - i
  {
    if i < |url| && IsDigit(url[i]) then DigitRunEnd(url, i + 1) else i
  }

  /** `match[1]` of the Vimeo pattern at `i`: the longest digit run. */
  function VimeoAt(url: string, i: nat): (r: Option<string>)
    ensures r.Some? ==> r.value != [] && forall j :: 0 <= j < |r.value| ==> IsDigit(r.value[j])
  {
    if OccursAt(url, "vimeo.com/", i) && i + 10 < |url| && IsDigit(url[i + 10]) then
      Some(url[i + 10..DigitRunEnd(url, i + 10)])
    else None
  }

  // ---------------------------------------------------------------------
  // SoundCloud:  soundcloud\.com\/([a-zA-Z0-9-_]+)\/([a-zA-Z0-9-_]+)

  /** `[a-zA-Z0-9-_]`: after the range `0-9` the `-` is a literal. */
  predicate IsNameChar(c: char) {
    'a' <= c <= 'z' || 'A' <= c <= 'Z' || IsDigit(c) || c == '-' || c == '_'
  }

  function NameRunEnd(url: string, i: nat): (j: nat)
    requires i <= |url|
    ensures i <= j <= |url|
    ensures forall k :: i <= k < j ==> IsNameChar(url[k])
    ensures j < |url| ==> !IsNameChar(url[j])
    decreases |url| - i
  {
    if i < |url| && IsNameChar(url[i]) then NameRunEnd(url, i + 1) else i
  }

  /** Every character after `soundcloud.com/` except the one at `s` is a
      name character. */
  predicate TrackChars(m: string, s: nat) {
    forall k :: 15 <= k < |m| && k != s ==> IsNameChar(m[k])
  }

  /** A whole SoundCloud match: `soundcloud.com/<user>/<track>`. */
  predicate IsTrackPath(m: string) {
    && |m| > 15 && m[..15] == "soundcloud.com/"
    && exists s :: 15 < s < |m| - 1 && m[s] == '/' && TrackChars(m, s)
  }

  /** `match[0]` of the SoundCloud pattern at `i`: both name runs greedy. */
  function SoundCloudAt(url: string, i: nat): (r: Option<string>)
    ensures r.Some? ==> IsTrackPath(r.value)
  {
    if OccursAt(url, "soundcloud.com/", i) then
      var e1 := NameRunEnd(url, i + 15);
      if i + 15 < e1 < |url| && url[e1] == '/' then
        var e2 := NameRunEnd(url, e1 + 1);
        if e2 > e1 + 1 then
          var m := url[i..e2];
          assert m[e1 - i] == '/';
          assert m[..15] == "soundcloud.com/";
          assert TrackChars(m, e1 - i) by {
            forall k | 15 <= k < |m| && k != e1 - i ensures IsNameChar(m[k]) {
              assert m[k] == url[i + k];
            }
          }
          Some(m)
        else None
      else None
    else None
  }

  // ---------------------------------------------------------------------
  // encodeURIComponent on ASCII text, and its inverse

  predicate IsAscii(s: string) {
    forall i :: 0 <= i < |s| ==> s[i] as int < 128
  }

  /** The characters `encodeURIComponent` leaves as they are. */
  predicate IsUnreserved(c: char) {
    'a' <= c <= 'z' || 'A' <= c <= 'Z' || IsDigit(c)
    || c == '-' || c == '_' || c == '.' || c == '!' || c == '~' || c == '*'
    || c == '\'' || c == '(' || c == ')'
  }

  function HexChar(d: nat): (c: char)
    requires d < 16
    ensures IsHexDigit(c) && HexDigitValue(c) == d
  {
    if d < 10 then DigitChar(d) else ('A' as int + d - 10) as char
  }

  function EncodeChar(c: char): string
    requires c as int < 128
  {
    if IsUnreserved(c) then [c] else ['%', HexChar(c as int / 16), HexChar(c as int % 16)]
  }

  /** `encodeURIComponent(s)` for ASCII `s`: every reserved character becomes
      `%` and two upper-case hexadecimal digits. */
  function EncodeURIComponent(s: string): (r: string)
    requires IsAscii(s)
  {
    if s == [] then [] else EncodeChar(s[0]) + EncodeURIComponent(s[1..])
  }

  /** `decodeURIComponent` restricted to single-byte escapes. */
  function PercentDecode(s: string): string {
    if s == [] then []
    else if |s| >= 3 && s[0] == '%' && IsHexDigit(s[1]) && IsHexDigit(s[2]) then
      [(HexDigitValue(s[1]) * 16 + HexDigitValue(s[2])) as char] + PercentDecode(s[3..])
    else [s[0]] + PercentDecode(s[1..])
  }

  lemma {:induction false} DecodeEncode(s: string)
    requires IsAscii(s)
    ensures PercentDecode(EncodeURIComponent(s)) == s
  {
    if s != [] {
      DecodeEncode(s[1..]);
      var e := EncodeChar(s[0]);
      var rest := EncodeURIComponent(s[1..]);
      var t := e + rest;
      if IsUnreserved(s[0]) {
        assert t[0] == s[0] && t[1..] == rest;
      } else {
        assert t[3..] == rest;
        assert t[0] == '%';
      }
    }
  }

  // ---------------------------------------------------------------------
  // Leftmost match

  /** What a platform's pattern captures when it matches at position `i`:
      the video id for YouTube, the digits for Vimeo, the whole match for
      SoundCloud. */
  function MatchAt(p: Platform, url: string, i: nat): (r: Option<string>)
    ensures r.Some? ==> Captured(p, r.value)
  {
    match p
    case YouTube => YouTubeAt(url, i)
    case Vimeo => VimeoAt(url, i)
    case SoundCloud => SoundCloudAt(url, i)
  }

  /** The shape of what each pattern captures. */
  predicate Captured(p: Platform, c: string) {
    match p
    case YouTube => IsVideoId(c)
    case Vimeo => c != [] && forall j :: 0 <= j < |c| ==> IsDigit(c[j])
    case SoundCloud => IsTrackPath(c)
  }

  /** `url.match(regex)` without the `g` flag: the match that starts at the
      smallest position from `i` on. */
  function Search(p: Platform, url: string, i: nat): (r: Option<string>)
    ensures r.Some? ==> Captured(p, r.value)
    decreases |url| - i
  {
    if i > |url| then None
    else if MatchAt(p, url, i).Some? then MatchAt(p, url, i)
    else Search(p, url, i + 1)
  }

  /** A pattern that matches somewhere from `i` on is found by the search. */
  lemma {:induction false} SearchFinds(p: Platform, url: string, i: nat, m: nat)
    requires i <= m <= |url| && MatchAt(p, url, m).Some?
    ensures Search(p, url, i).Some?
    decreases m - i
  {
    if MatchAt(p, url, i).None? {
      SearchFinds(p, url, i + 1, m);
    }
  }

  /** `m` is the first position from `i` on where the pattern matches, and
      the search from `i` returns that match. */
  predicate LeftmostAt(p: Platform, url: string, i: nat, m: nat) {
    && i <= m <= |url|
    && MatchAt(p, url, m) == Search(p, url, i)
    && forall k :: i <= k < m ==> MatchAt(p, url, k).None?
  }

  /** What the search returns is the match at the first position that has
      one. */
  lemma {:induction false} SearchLeftmost(p: Platform, url: string, i: nat)
    requires Search(p, url, i).Some?
    ensures exists m: nat :: LeftmostAt(p, url, i, m)
    decreases |url| - i
  {
    if MatchAt(p, url, i).None? {
      SearchLeftmost(p, url, i + 1);
      var m: nat :| LeftmostAt(p, url, i + 1, m);
      assert LeftmostAt(p, url, i, m);
    } else {
      assert LeftmostAt(p, url, i, i);
    }
  }

  // ---------------------------------------------------------------------
  // The embed URLs

  lemma TrackPathIsAscii(m: string)
    requires IsTrackPath(m)
    ensures IsAscii("https://" + m)
  {
    var u := "https://" + m;
    var s :| 15 < s < |m| - 1 && m[s] == '/' && TrackChars(m, s);
    forall i | 0 <= i < |u| ensures u[i] as int < 128 {
      if i >= 8 {
        assert u[i] == m[i - 8];
        if i - 8 < 15 {
          assert m[i - 8] == m[..15][i - 8];
        }
      }
    }
  }

  /** `getEmbedUrl(match)` of each platform. The SoundCloud widget carries the
      track URL `https://` + `match[0]`, percent-encoded, as its `url`
      parameter. */
  function EmbedUrl(p: Platform, c: string): string
    requires Captured(p, c)
  {
    match p
    case YouTube => YouTubePrefix + c + YouTubeSuffix
    case Vimeo => VimeoPrefix + c + VimeoSuffix
    case SoundCloud =>
      TrackPathIsAscii(c);
      SoundCloudPrefix + EncodeURIComponent("https://" + c) + SoundCloudSuffix
  }

  /** The embed URL a platform's pattern produces for `url`, if it matches. */
  function MatchPlatform(p: Platform, url: string): Option<string> {
    var c := Search(p, url, 0);
    if c.Some? then Some(EmbedUrl(p, c.value)) else None
  }

  /** The platform whose pattern decides a URL: the first in table order that
      matches. */
  function FirstMatch(url: string): Option<Platform> {
    if MatchPlatform(YouTube, url).Some? then Some(YouTube)
    else if MatchPlatform(Vimeo, url).Some? then Some(Vimeo)
    else if MatchPlatform(SoundCloud, url).Some? then Some(SoundCloud)
    else None
  }

  /** `validateAndParseEmbed(url)`: the patterns are tried in table order and
      the first one that matches gives the result. */
  method ValidateAndParseEmbed(url: string) returns (r: EmbedValidation)
    ensures r.IsValid() <==> exists p: Platform :: MatchPlatform(p, url).Some?
    ensures r.Valid? ==> FirstMatch(url) == Some(r.platform)
    ensures r.Invalid? ==> FirstMatch(url) == None
    ensures r.Valid? ==> r.originalUrl == url && MatchPlatform(r.platform, url) == Some(r.embedUrl)
    ensures r.Valid? ==> forall p: Platform :: p.Rank() < r.platform.Rank() ==> MatchPlatform(p, url).None?
    ensures r.Invalid? ==> r.error == UnsupportedMessage
  {
    for i := 0 to |Patterns|
      invariant forall j :: 0 <= j < i ==> MatchPlatform(Patterns[j], url).None?
    {
      var embed := MatchPlatform(Patterns[i], url);
      if embed.Some? {
        r := Valid(embed.value, Patterns[i], url);
        forall p: Platform | p.Rank() < r.platform.Rank() ensures MatchPlatform(p, url).None? {
          assert Patterns[p.Rank()] == p;
        }
        return;
      }
    }
    forall p: Platform ensures MatchPlatform(p, url).None? {
      assert Patterns[p.Rank()] == p;
    }
    r := Invalid(UnsupportedMessage);
  }

  // ---------------------------------------------------------------------
  // Properties

  /** Every `youtu.be/` short link followed by eleven id characters is
      recognised as YouTube, whatever else the URL holds. */
  lemma ShortLinkRecognised(url: string, i: nat)
    requires OccursAt(url, "youtu.be/", i) && IdAt(url, i + 9)
    ensures MatchPlatform(YouTube, url).Some?
  {
    assert !OccursAt(url, "youtube.com/", i) by {
      assert url[i + 5] == url[i..i + 9][5] == '.';
    }
    assert MatchAt(YouTube, url, i).Some?;
    SearchFinds(YouTube, url, 0, i);
  }

  /** Every `youtube.com/embed/` link followed by eleven id characters is
      recognised as YouTube. */
  lemma EmbedLinkRecognised(url: string, i: nat)
    requires OccursAt(url, "youtube.com/embed/", i) && IdAt(url, i + 18)
    ensures MatchPlatform(YouTube, url).Some?
  {
    assert url[i..i + 12] == url[i..i + 18][..12];
    assert url[i + 12..i + 18] == url[i..i + 18][12..];
    assert MatchAt(YouTube, url, i).Some?;
    SearchFinds(YouTube, url, 0, i);
  }

  /** Every `vimeo.com/` link followed by a digit is recognised as Vimeo. */
  lemma VimeoLinkRecognised(url: string, i: nat)
    requires OccursAt(url, "vimeo.com/", i) && i + 10 < |url| && IsDigit(url[i + 10])
    ensures MatchPlatform(Vimeo, url).Some?
  {
    assert MatchAt(Vimeo, url, i).Some?;
    SearchFinds(Vimeo, url, 0, i);
  }

  /** A URL with none of the three host names is unsupported. */
  lemma {:induction false} NoHostNoMatch(p: Platform, url: string, i: nat)
    requires !Includes(url, "youtube.com/") && !Includes(url, "youtu.be/")
    requires !Includes(url, "vimeo.com/") && !Includes(url, "soundcloud.com/")
    ensures Search(p, url, i).None?
    decreases |url| - i
  {
    if i <= |url| {
      IncludesIffOccurs(url, "youtube.com/");
      IncludesIffOccurs(url, "youtu.be/");
      IncludesIffOccurs(url, "vimeo.com/");
      IncludesIffOccurs(url, "soundcloud.com/");
      assert !OccursAt(url, "youtube.com/", i) && !OccursAt(url, "youtu.be/", i);
      assert !OccursAt(url, "vimeo.com/", i) && !OccursAt(url, "soundcloud.com/", i);
      assert MatchAt(p, url, i).None?;
      NoHostNoMatch(p, url, i + 1);
    }
  }

  /** A YouTube result is `https://www.youtube.com/embed/<id>?rel=0` with an
      eleven-character id free of `"`, `&`, `?`, `/` and whitespace. */
  lemma YouTubeShape(url: string)
    requires MatchPlatform(YouTube, url).Some?
    ensures exists id :: IsVideoId(id) && MatchPlatform(YouTube, url) == Some(YouTubePrefix + id + YouTubeSuffix)
  {
    var id := Search(YouTube, url, 0).value;
    assert IsVideoId(id);
  }

  /** A Vimeo result is `https://player.vimeo.com/video/<digits>` followed by
      the fixed player options, with a non-empty run of digits. */
  lemma VimeoShape(url: string)
    requires MatchPlatform(Vimeo, url).Some?
    ensures exists d :: (d != [] && (forall j :: 0 <= j < |d| ==> IsDigit(d[j]))
                         && MatchPlatform(Vimeo, url) == Some(VimeoPrefix + d + VimeoSuffix))
  {
    var d := Search(Vimeo, url, 0).value;
    assert Captured(Vimeo, d);
  }

  /** A SoundCloud result decodes back to the track URL it was built from. */
  lemma SoundCloudCarriesTrack(url: string)
    requires MatchPlatform(SoundCloud, url).Some?
    ensures exists m, enc :: (IsTrackPath(m) && PercentDecode(enc) == "https://" + m
                              && MatchPlatform(SoundCloud, url) == Some(SoundCloudPrefix + enc + SoundCloudSuffix))
  {
    var m := Search(SoundCloud, url, 0).value;
    TrackPathIsAscii(m);
    var enc := EncodeURIComponent("https://" + m);
    DecodeEncode("https://" + m);
    assert MatchPlatform(SoundCloud, url) == Some(SoundCloudPrefix + enc + SoundCloudSuffix);
  }
}
