/** Which destinations are accepted: scheme, host and port by their spelling. */
module DestinationAcceptance {
  import opened Prelude
  import opened Splitting
  import opened DestinationOrigin

  // ----- hosts

  predicate IsLabelChar(c: char) {
    'a' <= c <= 'z' || 'A' <= c <= 'Z' || '0' <= c <= '9' || c == '-'
  }

  ghost predicate IsLabel(part: string) {
    part != "" && forall i :: 0 <= i < |part| ==> IsLabelChar(part[i])
  }

  /** Labels of letters, digits and hyphens, separated by dots, with no hyphen at either end. */
  ghost predicate SpellsHost(host: string) {
    && host != "" && host[0] != '-' && host[|host| - 1] != '-'
    && forall i :: 0 <= i < |Parts(host, '.')| ==> IsLabel(Parts(host, '.')[i])
  }

  ghost predicate EndsWithDot(s: string) {
    s != "" && s[|s| - 1] == '.'
  }

  lemma DoubleDotCons(s: string)
    requires s != ""
    ensures HasDoubleDot(s) <==> (s[0] == '.' && |s| > 1 && s[1] == '.') || HasDoubleDot(s[1..])
  {
    var later := s[1..];
    if i :| 0 <= i < |s| - 1 && s[i] == '.' && s[i + 1] == '.' {
      if i > 0 {
        assert later[i - 1] == '.' && later[i - 1 + 1] == '.';
      }
    }
    if i :| 0 <= i < |later| - 1 && later[i] == '.' && later[i + 1] == '.' {
      assert s[i + 1] == '.' && s[i + 1 + 1] == '.';
    }
  }

  ghost predicate LabelsFrom(s: string, k: nat) {
    forall i :: k <= i < |Parts(s, '.')| ==> Parts(s, '.')[i] != ""
  }

  lemma FirstLabelIsEmpty(s: string)
    ensures Parts(s, '.')[0] == "" <==> s == "" || s[0] == '.'
  {
  }

  lemma LabelsFromFirst(s: string)
    ensures LabelsFrom(s, 0) <==> Parts(s, '.')[0] != "" && LabelsFrom(s, 1)
  {
  }

  lemma LabelsFromTail(s: string)
    requires s != ""
    ensures LabelsFrom(s, 1) <==> if s[0] == '.' then LabelsFrom(s[1..], 0) else LabelsFrom(s[1..], 1)
  {
    var all, later := Parts(s, '.'), Parts(s[1..], '.');
    if s[0] == '.' {
      assert |all| == |later| + 1 && forall i :: 1 <= i < |all| ==> all[i] == later[i - 1];
      if LabelsFrom(s, 1) {
        forall i | 0 <= i < |later| ensures later[i] != "" {
          assert all[i + 1] == later[i];
        }
      }
    } else {
      assert |all| == |later| && forall i :: 1 <= i < |all| ==> all[i] == later[i];
    }
  }

  lemma EndsWithDotCons(s: string)
    requires s != ""
    ensures EndsWithDot(s) <==> (|s| == 1 && s[0] == '.') || EndsWithDot(s[1..])
  {
  }

  /** No label but the first is empty exactly when no dot ends the text or follows a dot. */
  lemma {:induction false} LaterLabelsAreFull(s: string)
    ensures LabelsFrom(s, 1) <==> !EndsWithDot(s) && !HasDoubleDot(s)
  {
    if s != "" {
      LaterLabelsAreFull(s[1..]);
      DoubleDotCons(s);
      EndsWithDotCons(s);
      FirstLabelIsEmpty(s[1..]);
      LabelsFromFirst(s[1..]);
      LabelsFromTail(s);
    }
  }

  lemma {:induction false} LabelCharacters(s: string)
    ensures (forall i :: 0 <= i < |s| ==> IsHostChar(s[i])) <==>
      forall i, j :: 0 <= i < |Parts(s, '.')| && 0 <= j < |Parts(s, '.')[i]| ==> IsLabelChar(Parts(s, '.')[i][j])
  {
    if s != "" {
      var rest, later, all := s[1..], Parts(s[1..], '.'), Parts(s, '.');
      LabelCharacters(rest);
      CharactersCons(s);
      if s[0] == '.' {
        assert |all| == |later| + 1 && all[0] == "";
        assert forall i :: 0 <= i < |later| ==> all[i + 1] == later[i];
        if AllLabelChars(all) {
          forall i, j | 0 <= i < |later| && 0 <= j < |later[i]| ensures IsLabelChar(later[i][j]) {
            assert all[i + 1][j] == later[i][j];
          }
        }
      } else {
        assert |all| == |later| && all[0] == [s[0]] + later[0];
        assert forall i :: 1 <= i < |later| ==> all[i] == later[i];
        if AllLabelChars(all) {
          assert IsLabelChar(all[0][0]);
          forall i, j | 0 <= i < |later| && 0 <= j < |later[i]| ensures IsLabelChar(later[i][j]) {
            if i == 0 {
              assert all[0][j + 1] == later[0][j];
            } else {
              assert all[i][j] == later[i][j];
            }
          }
        }
      }
    }
  }

  ghost predicate AllLabelChars(parts: seq<string>) {
    forall i, j :: 0 <= i < |parts| && 0 <= j < |parts[i]| ==> IsLabelChar(parts[i][j])
  }

  lemma CharactersCons(s: string)
    requires s != ""
    ensures (forall i :: 0 <= i < |s| ==> IsHostChar(s[i])) <==>
      IsHostChar(s[0]) && forall i :: 0 <= i < |s[1..]| ==> IsHostChar(s[1..][i])
  {
    if IsHostChar(s[0]) && forall i :: 0 <= i < |s[1..]| ==> IsHostChar(s[1..][i]) {
      forall i | 0 <= i < |s| ensures IsHostChar(s[i]) {
        if i > 0 {
          assert s[1..][i - 1] == s[i];
        }
      }
    }
  }

  lemma HostIsSpelled(host: string)
    ensures IsHost(host) <==> SpellsHost(host)
  {
    LaterLabelsAreFull(host);
    LabelCharacters(host);
    FirstLabelIsEmpty(host);
    var labels := Parts(host, '.');
    if SpellsHost(host) {
      assert IsLabel(labels[0]);
      forall i | 1 <= i < |labels| ensures labels[i] != "" {
        assert IsLabel(labels[i]);
      }
      forall i, j | 0 <= i < |labels| && 0 <= j < |labels[i]| ensures IsLabelChar(labels[i][j]) {
        assert IsLabel(labels[i]);
      }
    }
    if IsHost(host) {
      forall i | 0 <= i < |labels| ensures IsLabel(labels[i]) {
        if i > 0 {
          assert LabelsFrom(host, 1);
        }
      }
    }
  }

  // ----- ports

  /** A decimal numeral of a port, possibly with zeros in front and a plus sign. */
  ghost predicate SpellsPort(text: string, port: u16) {
    exists digits: string :: SpellsNumber(digits, port) && (text == digits || text == "+" + digits)
  }

  ghost predicate SpellsNumber(digits: string, n: nat) {
    AllDigits(digits) && Digits(digits) == n
  }

  lemma ReadDigits(text: string, port: u16)
    requires ParseU16(text) == Some(port)
    ensures SpellsNumber(if text != "" && text[0] == '+' then text[1..] else text, port)
  {
    var digits := if text != "" && text[0] == '+' then text[1..] else text;
    assert AllDigits(digits);
  }

  lemma PortIsSpelled(text: string, port: u16)
    ensures ParseU16(text) == Some(port) <==> SpellsPort(text, port)
  {
    var digits := if text != "" && text[0] == '+' then text[1..] else text;
    if ParseU16(text) == Some(port) {
      ReadDigits(text, port);
      if text != "" && text[0] == '+' {
        assert text == [text[0]] + digits && [text[0]] == "+";
      }
    }
    if spelled: string :| SpellsNumber(spelled, port) && (text == spelled || text == "+" + spelled) {
      assert IsDigit(spelled[0]) && !IsDigit('+');
      if text == spelled {
        assert digits == spelled;
      } else {
        assert text[0] == '+' && text[1..] == spelled;
      }
    }
  }

  /** The usual spelling of a number. */
  function Decimal(n: nat): string {
    (if n < 10 then "" else Decimal(n / 10)) + [LastDigit(n)]
  }

  function LastDigit(n: nat): (c: char)
    ensures IsDigit(c) && c as int - '0' as int == n % 10
  {
    '0' + (n % 10) as char
  }

  lemma SpelledOneMore(before: string, tens: nat, c: char)
    requires (before == "" && tens == 0) || SpellsNumber(before, tens)
    requires IsDigit(c)
    ensures SpellsNumber(before + [c], tens * 10 + (c as int - '0' as int))
  {
    var more := before + [c];
    assert more[..|more| - 1] == before && more[|more| - 1] == c;
  }

  lemma {:induction false} DecimalSpells(n: nat)
    ensures SpellsNumber(Decimal(n), n)
  {
    if n >= 10 {
      DecimalSpells(n / 10);
      SpelledOneMore(Decimal(n / 10), n / 10, LastDigit(n));
    } else {
      SpelledOneMore("", 0, LastDigit(n));
    }
  }

  /** Every port is accepted in its usual spelling. */
  lemma DecimalPortIsRead(port: u16)
    ensures ParseU16(Decimal(port)) == Some(port)
  {
    DecimalSpells(port);
    PortIsSpelled(Decimal(port), port);
  }

  // ----- authorities

  lemma {:induction false} NoColonsCounted(s: string)
    requires ':' !in s
    ensures CountColons(s) == 0 && FindLastColon(s) == None
  {
    if s != "" {
      NoColonsCounted(s[1..]);
      NoColonFound(s);
    }
  }

  lemma {:induction false} NoColonFound(s: string)
    requires ':' !in s
    ensures FindLastColon(s) == None
  {
    if s != "" {
      assert s[|s| - 1] in s;
      NoColonFound(s[..|s| - 1]);
    }
  }

  lemma {:induction false} OneColonCounted(host: string, port: string)
    requires ':' !in host && ':' !in port
    ensures CountColons(host + (":" + port)) == 1
  {
    var s := host + (":" + port);
    if host == "" {
      assert s[1..] == port;
      NoColonsCounted(port);
    } else {
      assert s[0] == host[0] && s[1..] == host[1..] + (":" + port);
      OneColonCounted(host[1..], port);
    }
  }

  lemma {:induction false} LastColonFound(host: string, port: string)
    requires ':' !in port
    ensures FindLastColon(host + (":" + port)) == Some(|host|)
  {
    var s := host + (":" + port);
    if port == "" {
      assert s[|s| - 1] == ':';
    } else {
      var shorter := port[..|port| - 1];
      assert s[|s| - 1] == port[|port| - 1] && port[|port| - 1] in port;
      assert s[..|s| - 1] == host + (":" + shorter);
      LastColonFound(host, shorter);
    }
  }

  /** A character that may stand in an authority. */
  predicate IsAuthorityChar(c: char) {
    c !in {'/', '\\', '@', '?', '#', '\0'} && !IsAsciiWhitespace(c)
  }

  lemma SpellingsAreClean(c: char)
    ensures IsHostChar(c) || IsDigit(c) || c == '+' || c == ':' ==> IsAuthorityChar(c)
  {
  }

  /** The origin is spelled: a host, and a colon with a non-zero port if it has one; plain
      HTTP only for the loopback address with a port. */
  ghost predicate SpellsOrigin(authority: string, isHttp: bool, origin: Origin) {
    && SpellsHost(origin.host)
    && (match origin.port
        case None => authority == origin.host && !isHttp
        case Some(port) =>
          && port > 0 && (isHttp ==> origin.host == "127.0.0.1")
          && exists text: string :: SpellsPort(text, port) && authority == origin.host + (":" + text))
  }

  lemma HostIsClean(host: string)
    requires IsHost(host)
    ensures ':' !in host && forall i :: 0 <= i < |host| ==> IsAuthorityChar(host[i])
  {
    forall i | 0 <= i < |host| ensures IsAuthorityChar(host[i]) && host[i] != ':' {
      SpellingsAreClean(host[i]);
    }
  }

  lemma PortTextIsClean(text: string, port: u16)
    requires SpellsPort(text, port)
    ensures ':' !in text && forall i :: 0 <= i < |text| ==> IsAuthorityChar(text[i])
  {
    var digits: string :| SpellsNumber(digits, port) && (text == digits || text == "+" + digits);
    forall i | 0 <= i < |text| ensures IsAuthorityChar(text[i]) && text[i] != ':' {
      if text == digits {
        assert IsDigit(text[i]);
      } else if i > 0 {
        assert text[i] == digits[i - 1] && IsDigit(digits[i - 1]);
      }
      SpellingsAreClean(text[i]);
    }
  }

  lemma BareHostIsAuthority(host: string)
    requires IsHost(host)
    ensures IsAuthority(host) && FindLastColon(host) == None
  {
    HostIsClean(host);
    NoColonsCounted(host);
    assert forall i :: 0 <= i < |host| ==> IsAuthorityChar(host[i]);
  }

  lemma HostAndPortAreAuthority(host: string, text: string, port: u16)
    requires IsHost(host) && SpellsPort(text, port)
    ensures var authority := host + (":" + text);
      && IsAuthority(authority) && FindLastColon(authority) == Some(|host|)
      && authority[..|host|] == host && authority[|host| + 1..] == text
  {
    var authority := host + (":" + text);
    HostIsClean(host);
    PortTextIsClean(text, port);
    OneColonCounted(host, text);
    LastColonFound(host, text);
    forall i | 0 <= i < |authority| ensures IsAuthorityChar(authority[i]) {
      if i < |host| {
        assert authority[i] == host[i];
      } else if i > |host| {
        assert authority[i] == text[i - |host| - 1];
      }
    }
  }

  lemma HostAndPortAreParsed(host: string, text: string, port: u16, isHttp: bool)
    requires SpellsHost(host) && SpellsPort(text, port) && port > 0 && (isHttp ==> host == "127.0.0.1")
    ensures ParseAuthority(host + (":" + text), isHttp) == Some(Origin(host, Some(port)))
  {
    HostIsSpelled(host);
    HostAndPortAreAuthority(host, text, port);
    PortIsSpelled(text, port);
  }

  lemma SpelledIsParsed(authority: string, isHttp: bool, origin: Origin)
    requires SpellsOrigin(authority, isHttp, origin)
    ensures ParseAuthority(authority, isHttp) == Some(origin)
  {
    if origin.port.None? {
      HostIsSpelled(origin.host);
      BareHostIsAuthority(authority);
    } else {
      var text: string :| SpellsPort(text, origin.port.value) && authority == origin.host + (":" + text);
      HostAndPortAreParsed(origin.host, text, origin.port.value, isHttp);
    }
  }

  lemma ParsedParts(authority: string, isHttp: bool, origin: Origin)
    requires ParseAuthority(authority, isHttp) == Some(origin)
    ensures IsHost(origin.host) && origin.port != Some(0)
    ensures isHttp ==> origin.host == "127.0.0.1" && origin.port.Some?
    ensures FindLastColon(authority).None? ==> origin == Origin(authority, None)
    ensures FindLastColon(authority).Some? ==>
      var at := FindLastColon(authority).value;
      origin.host == authority[..at] && origin.port.Some? && ParseU16(authority[at + 1..]) == origin.port
  {
  }

  lemma SpelledWithPort(authority: string, isHttp: bool, origin: Origin, text: string)
    requires SpellsHost(origin.host) && origin.port.Some? && origin.port != Some(0)
    requires isHttp ==> origin.host == "127.0.0.1"
    requires SpellsPort(text, origin.port.value) && authority == origin.host + (":" + text)
    ensures SpellsOrigin(authority, isHttp, origin)
  {
  }

  lemma ParsedWithPort(authority: string, isHttp: bool, origin: Origin)
    requires ParseAuthority(authority, isHttp) == Some(origin) && FindLastColon(authority).Some?
    ensures SpellsOrigin(authority, isHttp, origin)
  {
    ParsedParts(authority, isHttp, origin);
    HostIsSpelled(origin.host);
    var text := SplitAtColon(authority, FindLastColon(authority).value);
    PortIsSpelled(text, origin.port.value);
    SpelledWithPort(authority, isHttp, origin, text);
  }

  lemma ParsedIsSpelled(authority: string, isHttp: bool, origin: Origin)
    requires ParseAuthority(authority, isHttp) == Some(origin)
    ensures SpellsOrigin(authority, isHttp, origin)
  {
    if FindLastColon(authority).Some? {
      ParsedWithPort(authority, isHttp, origin);
    } else {
      ParsedParts(authority, isHttp, origin);
      HostIsSpelled(origin.host);
    }
  }

  /** A destination is accepted as an origin exactly when it spells it after its scheme. */
  lemma DestinationIsAcceptedExactly(destination: string, origin: Origin)
    ensures ParseDestinationOrigin(destination) == Some(origin) <==>
      exists isHttp, authority: string ::
        SpellsOrigin(authority, isHttp, origin) && destination == (if isHttp then "http" else "https") + ("://" + authority)
  {
    if ParseDestinationOrigin(destination) == Some(origin) {
      var isHttp, authority := AcceptedDestinationShape(destination);
      ParsedIsSpelled(authority, isHttp, origin);
    }
    if isHttp, authority: string :|
      SpellsOrigin(authority, isHttp, origin) && destination == (if isHttp then "http" else "https") + ("://" + authority)
    {
      SpelledIsParsed(authority, isHttp, origin);
      SchemeIsStripped(isHttp, authority);
    }
  }

  lemma SchemeIsStripped(isHttp: bool, authority: string)
    ensures ParseDestinationOrigin((if isHttp then "http" else "https") + ("://" + authority)) == ParseAuthority(authority, isHttp)
  {
    Schemes();
    var destination := (if isHttp then "http" else "https") + ("://" + authority);
    if isHttp {
      assert destination == "http://" + authority;
      assert destination[4] == ':' && "https://"[4] == 's';
      assert destination[|"http://"|..] == authority;
    } else {
      assert destination == "https://" + authority;
      assert destination[|"https://"|..] == authority;
    }
  }
}
