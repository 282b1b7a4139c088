/** Shell quoting, read back with the quoting rules of sections 2.2.1 (escape
    character) and 2.2.2 (single quotes) of the POSIX.1-2017 Shell Command Language. */
module ShellQuote {
  import opened Prelude

  /** What one character of the value becomes. */
  function EscapedChar(c: char): string {
    if c == '\'' then ['\'', '\\', '\'', '\''] else [c]
  }

  /** `value.replace('\'', "'\\''")`. */
  function Escaped(value: string): string {
    if value == "" then ""
    else EscapedChar(value[0]) + Escaped(value[1..])
  }

  function ShellQuote(value: string): string {
    ['\''] + Escaped(value) + ['\'']
  }

  // ----- reading a word

  /** Characters that end a word when unquoted. */
  predicate EndsWord(c: char) {
    c in {' ', '\t', '\n', '|', '&', ';', '<', '>', '(', ')'}
  }

  /** Characters that mean something else when unquoted; reading them is not modelled. */
  predicate IsSpecial(c: char) {
    c in {'$', '`', '"', '*', '?', '[', '#', '~', '=', '%', '!', '{', '}'}
  }

  datatype Reading = Word(word: string, rest: string) | Unmodelled

  /** Outside quotes, with `read` already part of the word. */
  function ReadUnquoted(input: string, read: string): Reading
    decreases |input|
  {
    if input == "" then Word(read, "")
    else if input[0] == '\'' then ReadQuoted(input[1..], read)
    else if input[0] == '\\' then
      if |input| == 1 then Unmodelled
      else if input[1] == '\n' then ReadUnquoted(input[2..], read)
      else ReadUnquoted(input[2..], read + [input[1]])
    else if EndsWord(input[0]) then Word(read, input)
    else if IsSpecial(input[0]) then Unmodelled
    else ReadUnquoted(input[1..], read + [input[0]])
  }

  /** Inside single quotes, where every character but the closing quote is literal. */
  function ReadQuoted(input: string, read: string): Reading
    decreases |input|
  {
    if input == "" then Unmodelled
    else if input[0] == '\'' then ReadUnquoted(input[1..], read)
    else ReadQuoted(input[1..], read + [input[0]])
  }

  /** An escaped quote leaves the quotes, adds one quote character and re-enters them. */
  lemma EscapedQuote(after: string, read: string)
    ensures ReadQuoted(['\'', '\\', '\'', '\''] + after, read) == ReadQuoted(after, read + ['\''])
  {
    var input := ['\'', '\\', '\'', '\''] + after;
    var unquoted := ['\\', '\'', '\''] + after;
    var reopened := ['\''] + after;
    assert input[1..] == unquoted && unquoted[2..] == reopened && reopened[1..] == after;
    assert ReadQuoted(input, read) == ReadUnquoted(unquoted, read);
    assert ReadUnquoted(unquoted, read) == ReadUnquoted(reopened, read + ['\'']);
  }

  lemma LiteralCharacter(c: char, after: string, read: string)
    requires c != '\''
    ensures ReadQuoted([c] + after, read) == ReadQuoted(after, read + [c])
  {
    assert ([c] + after)[1..] == after;
  }

  lemma EscapedCharReadsBack(c: char, after: string, read: string)
    ensures ReadQuoted(EscapedChar(c) + after, read) == ReadQuoted(after, read + [c])
  {
    if c == '\'' {
      EscapedQuote(after, read);
    } else {
      LiteralCharacter(c, after, read);
    }
  }

  lemma {:induction false} EscapedReadsBack(value: string, close: string, read: string)
    ensures ReadQuoted(Escaped(value) + close, read) == ReadQuoted(close, read + value)
  {
    if value == "" {
      assert Escaped(value) + close == close && read + value == read;
    } else {
      var first, rest := value[0], value[1..];
      var tail := Escaped(rest);
      AppendIsAssociative(EscapedChar(first), tail, close);
      AppendIsAssociative(read, [first], rest);
      assert [first] + rest == value;
      EscapedCharReadsBack(first, tail + close, read);
      EscapedReadsBack(rest, close, read + [first]);
    }
  }

  /** For every string, a shell reads the quoted form as exactly that one word,
      wherever the word ends, and nothing of the value is read unquoted. */
  lemma QuotedReadsBack(value: string, after: string)
    requires after == "" || EndsWord(after[0])
    ensures ReadUnquoted(ShellQuote(value) + after, "") == Word(value, after)
  {
    var body, close := Escaped(value), ['\''] + after;
    assert ReadQuoted(close, value) == Word(value, after) by {
      assert close[1..] == after;
    }
    EscapedReadsBack(value, close, "");
    assert "" + value == value;
    QuotedShape(value, after);
    OpeningQuote(body + close);
  }

  lemma QuotedShape(value: string, after: string)
    ensures ShellQuote(value) + after == ['\''] + (Escaped(value) + (['\''] + after))
  {
    AppendIsAssociative(['\''] + Escaped(value), ['\''], after);
    AppendIsAssociative(['\''], Escaped(value), ['\''] + after);
  }

  lemma OpeningQuote(input: string)
    ensures ReadUnquoted(['\''] + input, "") == ReadQuoted(input, "")
  {
    assert (['\''] + input)[1..] == input;
  }

  /** Quoting loses nothing: different values have different quoted forms. */
  lemma QuotingIsInjective(a: string, b: string)
    requires ShellQuote(a) == ShellQuote(b)
    ensures a == b
  {
    QuotedReadsBack(a, "");
    QuotedReadsBack(b, "");
  }
}
