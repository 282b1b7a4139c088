/** Credential destinations: parsing an exact origin and recovering it from the
    bound URL (a restricted form of the authority in section 3.2 of RFC 3986). */
module DestinationOrigin {
  import opened Prelude

  type u16 = x: nat | x < 0x1_0000

  datatype Origin = Origin(host: string, port: Option<u16>)

  // ----- string operations of the source language

  function StripPrefix(s: string, prefix: string): Option<string> {
    if prefix <= s then Some(s[|prefix|..]) else None
  }

  /** The index of the first "://", as `split_once` finds it. */
  function FindSeparator(s: string): (r: Option<nat>)
    ensures r.Some? ==> r.value + 3 <= |s|
  {
    if |s| < 3 then None
    else if s[..3] == "://" then Some(0)
    else
      var later := FindSeparator(s[1..]);
      if later.Some? then Some(later.value + 1) else None
  }

  /** `split('/').next()`: everything before the first slash. */
  function BeforeSlash(s: string): (r: string)
    ensures r <= s
  {
    if s == "" || s[0] == '/' then "" else [s[0]] + BeforeSlash(s[1..])
  }

  function CountColons(s: string): nat {
    if s == "" then 0 else (if s[0] == ':' then 1 else 0) + CountColons(s[1..])
  }

  /** The index of the last ':', as `rsplit_once` finds it. */
  function FindLastColon(s: string): (r: Option<nat>)
    ensures r.Some? ==> r.value < |s| && s[r.value] == ':'
  {
    if s == "" then None
    else if s[|s| - 1] == ':' then Some(|s| - 1)
    else FindLastColon(s[..|s| - 1])
  }

  predicate IsDigit(c: char) {
    '0' <= c <= '9'
  }

  predicate AllDigits(s: string) {
    s != "" && forall i :: 0 <= i < |s| ==> IsDigit(s[i])
  }

  function Digits(s: string): nat
    requires forall i :: 0 <= i < |s| ==> IsDigit(s[i])
  {
    if s == "" then 0
    else
      var last := s[|s| - 1];
      assert IsDigit(last);
      Digits(s[..|s| - 1]) * 10 + (last - '0') as nat
  }

  /** `str::parse::<u16>`: an optional plus sign, then at least one digit, in range. */
  function ParseU16(s: string): Option<u16> {
    var digits := if s != "" && s[0] == '+' then s[1..] else s;
    if !AllDigits(digits) then None
    else if Digits(digits) < 0x1_0000 then Some(Digits(digits)) else None
  }

  predicate IsAsciiWhitespace(c: char) {
    c == ' ' || c == '\t' || c == '\n' || c == '\r' || c == '\U{000C}'
  }

  predicate IsHostChar(c: char) {
    'a' <= c <= 'z' || 'A' <= c <= 'Z' || IsDigit(c) || c == '.' || c == '-'
  }

  predicate HasDoubleDot(s: string) {
    exists i :: 0 <= i < |s| - 1 && s[i] == '.' && s[i + 1] == '.'
  }

  // ----- origins

  predicate IsAuthority(authority: string) {
    && authority != ""
    && (forall i :: 0 <= i < |authority| ==> authority[i] !in {'/', '\\', '@', '?', '#', '\0'} && !IsAsciiWhitespace(authority[i]))
    && CountColons(authority) <= 1
  }

  predicate IsHost(host: string) {
    && host != ""
    && host[0] != '.' && host[0] != '-' && host[|host| - 1] != '.' && host[|host| - 1] != '-'
    && !HasDoubleDot(host)
    && forall i :: 0 <= i < |host| ==> IsHostChar(host[i])
  }

  function ParseAuthority(authority: string, isHttp: bool): Option<Origin> {
    if !IsAuthority(authority) then None
    else
      var colon := FindLastColon(authority);
      var host := if colon.Some? then authority[..colon.value] else authority;
      var port := if colon.Some? then ParseU16(authority[colon.value + 1..]) else None;
      if colon.Some? && port.None? then None
      else if !IsHost(host) || port == Some(0) then None
      else if isHttp && (host != "127.0.0.1" || port.None?) then None
      else Some(Origin(host, port))
  }

  function ParseDestinationOrigin(destination: string): Option<Origin> {
    var https, http := StripPrefix(destination, "https://"), StripPrefix(destination, "http://");
    if https.Some? then ParseAuthority(https.value, false)
    else if http.Some? then ParseAuthority(http.value, true)
    else None
  }

  /** The scheme and authority of a full URL, with any path discarded. */
  function SchemeAndAuthority(url: string): Option<string> {
    var separator := FindSeparator(url);
    if separator.None? then None
    else
      var end := separator.value + 3;
      Some(url[..end + |BeforeSlash(url[end..])|])
  }

  function DestinationOriginOf(url: string): Option<Origin> {
    var origin := SchemeAndAuthority(url);
    if origin.None? then None else ParseDestinationOrigin(origin.value)
  }

  /** The URL that a binding resolves a target to. */
  function ResolvedUrl(base: string, target: string): string {
    base + "/" + target
  }

  // ----- the origin survives binding

  lemma {:induction false} SeparatorAfterScheme(scheme: string, rest: string)
    requires ':' !in scheme
    ensures FindSeparator(scheme + ("://" + rest)) == Some(|scheme|)
  {
    var s := scheme + ("://" + rest);
    if scheme == "" {
      assert s[..3] == "://";
    } else {
      assert s[..3][0] == scheme[0] != ':';
      assert s[1..] == scheme[1..] + ("://" + rest);
      SeparatorAfterScheme(scheme[1..], rest);
    }
  }

  lemma {:induction false} SlashEndsAuthority(authority: string, path: string)
    requires '/' !in authority
    ensures BeforeSlash(authority + ("/" + path)) == authority
  {
    var s := authority + ("/" + path);
    if authority != "" {
      assert s[0] == authority[0] != '/' && s[1..] == authority[1..] + ("/" + path);
      SlashEndsAuthority(authority[1..], path);
    }
  }

  lemma OriginOfSchemeUrl(scheme: string, authority: string, target: string)
    requires ':' !in scheme && '/' !in authority
    ensures var base := scheme + ("://" + authority);
      SchemeAndAuthority(ResolvedUrl(base, target)) == Some(base)
  {
    var rest := authority + ("/" + target);
    SeparatorAfterScheme(scheme, rest);
    SlashEndsAuthority(authority, target);
    UrlParts(scheme, authority, target);
  }

  lemma UrlParts(scheme: string, authority: string, target: string)
    ensures var base, rest, end := scheme + ("://" + authority), authority + ("/" + target), |scheme| + 3;
      var url := scheme + ("://" + rest);
      ResolvedUrl(base, target) == url && url[end..] == rest && url[..end + |authority|] == base
  {
  }

  lemma Schemes()
    ensures ':' !in "https" && ':' !in "http"
    ensures "https" + "://" == "https://" && "http" + "://" == "http://"
  {
  }

  lemma SplitPrefix(s: string, a: string, b: string) returns (rest: string)
    requires a + b <= s
    ensures s == a + (b + rest) && StripPrefix(s, a + b) == Some(rest)
  {
    rest := s[|a + b|..];
  }

  /** An accepted destination is a scheme followed by a bare authority. */
  lemma AcceptedDestinationShape(base: string) returns (isHttp: bool, authority: string)
    requires ParseDestinationOrigin(base).Some?
    ensures base == (if isHttp then "http" else "https") + ("://" + authority)
    ensures ParseAuthority(authority, isHttp) == ParseDestinationOrigin(base)
    ensures '/' !in authority
  {
    Schemes();
    isHttp := !("https://" <= base);
    if isHttp {
      authority := SplitPrefix(base, "http", "://");
    } else {
      authority := SplitPrefix(base, "https", "://");
    }
  }

  /** For every accepted destination and every target, the origin recovered from the
      bound URL is the configured one, so the relay reaches that host and port. */
  lemma OriginSurvivesBinding(base: string, target: string)
    requires ParseDestinationOrigin(base).Some?
    ensures DestinationOriginOf(ResolvedUrl(base, target)) == ParseDestinationOrigin(base)
  {
    var isHttp, authority := AcceptedDestinationShape(base);
    Schemes();
    OriginOfSchemeUrl(if isHttp then "http" else "https", authority, target);
  }

  lemma SplitAtColon(s: string, k: nat) returns (after: string)
    requires k < |s| && s[k] == ':'
    ensures s == s[..k] + (":" + after) && after == s[k + 1..]
  {
    after := s[k + 1..];
  }

  lemma AuthoritySpellsOrigin(authority: string, isHttp: bool) returns (port: string)
    requires ParseAuthority(authority, isHttp).Some?
    ensures var origin := ParseAuthority(authority, isHttp).value;
      && IsHost(origin.host) && origin.port != Some(0)
      && (origin.port.Some? ==> ParseU16(port) == origin.port)
      && authority == origin.host + (if origin.port.Some? then ":" + port else "")
  {
    var colon := FindLastColon(authority);
    if colon.Some? {
      port := SplitAtColon(authority, colon.value);
    } else {
      port := "";
      assert authority == authority + "";
    }
  }

  /** An accepted destination spells out its host, and its port if it has one. */
  lemma AcceptedDestinationSpellsOrigin(base: string) returns (isHttp: bool, port: string)
    requires ParseDestinationOrigin(base).Some?
    ensures var origin := ParseDestinationOrigin(base).value;
      && IsHost(origin.host) && origin.port != Some(0)
      && (origin.port.Some? ==> ParseU16(port) == origin.port)
      && base == (if isHttp then "http" else "https")
                 + ("://" + (origin.host + (if origin.port.Some? then ":" + port else "")))
  {
    var authority;
    isHttp, authority := AcceptedDestinationShape(base);
    port := AuthoritySpellsOrigin(authority, isHttp);
  }
}
