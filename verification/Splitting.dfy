/** Splitting a text at a separator, and joining the parts again. */
module Splitting {

  /** The parts of a text between its separators. */
  function Parts(s: string, separator: char): (parts: seq<string>)
    ensures parts != []
  {
    if s == "" then [""]
    else
      var later := Parts(s[1..], separator);
      if s[0] == separator then [""] + later else [[s[0]] + later[0]] + later[1..]
  }

  /** The text with these parts. */
  function Joined(parts: seq<string>, separator: char): string
    requires parts != []
  {
    if |parts| == 1 then parts[0] else parts[0] + ([separator] + Joined(parts[1..], separator))
  }

  lemma {:induction false} PartsOfJoin(a: string, b: string, separator: char)
    ensures Parts(a + ([separator] + b), separator) == Parts(a, separator) + Parts(b, separator)
  {
    var s := a + ([separator] + b);
    if a == "" {
      assert s[0] == separator && s[1..] == b;
    } else {
      assert s[0] == a[0] && s[1..] == a[1..] + ([separator] + b);
      PartsOfJoin(a[1..], b, separator);
    }
  }

  lemma {:induction false} JoinedPrepend(c: char, parts: seq<string>, separator: char)
    requires parts != []
    ensures Joined([[c] + parts[0]] + parts[1..], separator) == [c] + Joined(parts, separator)
  {
    var longer := [[c] + parts[0]] + parts[1..];
    if |parts| > 1 {
      var rest := [separator] + Joined(parts[1..], separator);
      assert longer[1..] == parts[1..];
      assert [c] + (parts[0] + rest) == ([c] + parts[0]) + rest;
    }
  }

  lemma {:induction false} JoinedParts(s: string, separator: char)
    ensures Joined(Parts(s, separator), separator) == s
  {
    if s != "" {
      var later := Parts(s[1..], separator);
      JoinedParts(s[1..], separator);
      if s[0] == separator {
        var all := [""] + later;
        assert all[1..] == later;
        assert s == [separator] + s[1..];
      } else {
        JoinedPrepend(s[0], later, separator);
      }
    }
  }

  lemma {:induction false} JoinedAppend(a: seq<string>, b: seq<string>, separator: char)
    requires a != [] && b != []
    ensures Joined(a + b, separator) == Joined(a, separator) + ([separator] + Joined(b, separator))
  {
    var ab := a + b;
    assert ab[0] == a[0] && ab[1..] == a[1..] + b;
    if |a| == 1 {
      assert a[1..] + b == b;
    } else {
      JoinedAppend(a[1..], b, separator);
      var middle, last := [separator] + Joined(a[1..], separator), [separator] + Joined(b, separator);
      assert a[0] + (middle + last) == (a[0] + middle) + last;
      assert [separator] + (Joined(a[1..], separator) + last) == middle + last;
    }
  }

  /** Together with `JoinedParts`, this is what makes the parts the only ones. */
  lemma {:induction false} PartsAreSeparate(s: string, separator: char, i: nat)
    requires i < |Parts(s, separator)|
    ensures separator !in Parts(s, separator)[i]
  {
    if s != "" {
      var later := Parts(s[1..], separator);
      if s[0] == separator {
        if i > 0 {
          PartsAreSeparate(s[1..], separator, i - 1);
        }
      } else {
        PartsAreSeparate(s[1..], separator, i);
        assert Parts(s, separator)[i] == if i == 0 then [s[0]] + later[0] else later[i];
      }
    }
  }
}
