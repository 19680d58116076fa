/** Go's `%q` verb on the names and labels that appear in issue messages, and
    a reader that takes a quoted name back out of a message. */
module Format {
  import opened Wrappers

  /** A character `%q` prints as itself: printable ASCII other than `"` and `\`. */
  predicate PlainChar(c: char) {
    ' ' <= c <= '~' && c != '"' && c != '\\'
  }

  predicate Plain(s: string) {
    forall i :: 0 <= i < |s| ==> PlainChar(s[i])
  }

  /** fmt's `%q` on a plain string: the string between double quotes. */
  function Quote(s: string): string
    requires Plain(s)
  {
    "\"" + s + "\""
  }

  /** The index of the first `"` in `s`, or |s| when there is none. */
  function QuoteIndex(s: string): (i: nat)
    ensures i <= |s|
    ensures i < |s| ==> s[i] == '"'
    ensures forall k :: 0 <= k < i ==> s[k] != '"'
  {
    if s == [] || s[0] == '"' then 0 else 1 + QuoteIndex(s[1..])
  }

  /** Reads a quoted string off the front of `s`: its content and what follows
      the closing quote. */
  function ReadQuoted(s: string): Option<(string, string)> {
    if s == [] || s[0] != '"' then None
    else
      var body := s[1..];
      var i := QuoteIndex(body);
      if i == |body| then None else Some((body[..i], body[i + 1..]))
  }

  /** `s` with `prefix` removed from its front, if it starts with it. */
  function StripPrefix(s: string, prefix: string): (r: Option<string>)
    ensures r.Some? <==> |prefix| <= |s| && s[..|prefix|] == prefix
    ensures r.Some? ==> s == prefix + r.value
  {
    if |prefix| <= |s| && s[..|prefix|] == prefix then Some(s[|prefix|..]) else None
  }

  lemma StripPrefixAppend(prefix: string, rest: string)
    ensures StripPrefix(prefix + rest, prefix) == Some(rest)
  {
    assert (prefix + rest)[..|prefix|] == prefix;
  }

  /** A quoted plain string can be read back, whatever follows it. */
  lemma ReadQuotedQuote(x: string, rest: string)
    requires Plain(x)
    ensures ReadQuoted(Quote(x) + rest) == Some((x, rest))
  {
    var s := Quote(x) + rest;
    var body := s[1..];
    assert body == x + "\"" + rest;
    assert body[|x|] == '"';
    assert QuoteIndex(body) == |x|;
    assert body[..|x|] == x;
    assert body[|x| + 1..] == rest;
  }
}
