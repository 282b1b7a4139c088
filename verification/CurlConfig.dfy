/** The secret in the configuration that curl reads from its standard input: inside a
    quoted string, where a backslash escapes and a quote or a line end stops. */
module CurlConfig {
  import opened CapturedOutput
  import opened CredentialEffects

  const QUOTE: Byte := 34
  const BACKSLASH: Byte := 92

  datatype Reading = Value(value: Bytes, rest: Bytes) | Unterminated

  /** What an escaped character stands for (a tab, line feed, return or vertical tab), or the character itself. */
  function Unescaped(c: Byte): Byte {
    if c == 116 then 9 else if c == 110 then 10 else if c == 114 then 13 else if c == 118 then 11 else c
  }

  function Cons(c: Byte, reading: Reading): Reading {
    if reading.Value? then Value([c] + reading.value, reading.rest) else Unterminated
  }

  /** Reads a quoted string from just behind its opening quote. */
  function ReadQuoted(input: Bytes): Reading
    decreases |input|
  {
    if input == [] || input[0] == NEWLINE then Unterminated
    else if input[0] == QUOTE then Value([], input[1..])
    else if input[0] == BACKSLASH then
      if |input| == 1 then Unterminated else Cons(Unescaped(input[1]), ReadQuoted(input[2..]))
    else Cons(input[0], ReadQuoted(input[1..]))
  }

  ghost predicate IsPlain(value: Bytes) {
    forall i :: 0 <= i < |value| ==> value[i] != QUOTE && value[i] != BACKSLASH && value[i] != NEWLINE
  }

  lemma {:induction false} PlainReadsBack(value: Bytes, rest: Bytes)
    requires IsPlain(value)
    ensures ReadQuoted(value + ([QUOTE] + rest)) == Value(value, rest)
  {
    var input := value + ([QUOTE] + rest);
    if value == [] {
      assert input[0] == QUOTE && input[1..] == rest;
    } else {
      assert input[0] == value[0] && input[1..] == value[1..] + ([QUOTE] + rest);
      PlainReadsBack(value[1..], rest);
      assert [value[0]] + value[1..] == value;
    }
  }

  lemma {:induction false} ReadingIsShorter(input: Bytes)
    requires ReadQuoted(input).Value?
    ensures |ReadQuoted(input).value| + |ReadQuoted(input).rest| + 1 <= |input|
    decreases |input|
  {
    if input[0] != QUOTE {
      ReadingIsShorter(if input[0] == BACKSLASH then input[2..] else input[1..]);
    }
  }

  lemma {:induction false} ReadBackIsPlain(value: Bytes)
    requires ReadQuoted(value + [QUOTE]) == Value(value, [])
    ensures IsPlain(value)
  {
    if value != [] {
      var input := value + [QUOTE];
      assert input[0] == value[0] && input[1..] == value[1..] + [QUOTE];
      if value[0] == BACKSLASH {
        ReadingIsShorter(input[2..]);
      } else {
        var later := ReadQuoted(input[1..]);
        assert later.value == value[1..];
        ReadBackIsPlain(value[1..]);
      }
    }
  }

  /** A secret is delivered exactly when it is a non-empty run of visible ASCII that curl
      reads back unchanged from between the quotes. */
  lemma DeliverableReadsBack(secret: Bytes)
    ensures IsDeliverable(secret) <==>
      && secret != [] && (forall i :: 0 <= i < |secret| ==> 33 <= secret[i] <= 126)
      && ReadQuoted(secret + [QUOTE]) == Value(secret, [])
  {
    if IsPlain(secret) {
      PlainReadsBack(secret, []);
      assert [QUOTE] + [] == [QUOTE];
    }
    if ReadQuoted(secret + [QUOTE]) == Value(secret, []) {
      ReadBackIsPlain(secret);
    }
  }

  /** Whatever plain text stands before it in the header, and whatever follows. */
  lemma HeaderReadsBack(prefix: Bytes, secret: Bytes, rest: Bytes)
    requires IsPlain(prefix) && IsDeliverable(secret)
    ensures ReadQuoted(prefix + secret + ([QUOTE] + rest)) == Value(prefix + secret, rest)
  {
    PlainReadsBack(prefix + secret, rest);
  }
}
