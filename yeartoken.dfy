/** The year token of an attribute name, `attribute.split("_")[1]`
    (js/main.js), shown in marker popups. */
module YearToken {
  import opened Props

  const Separator: char := '_'

  /** `s.split(sep)` for a one-character separator: the maximal pieces of
      `s` between occurrences of `sep`, always at least one piece. */
  function Split(s: string, sep: char): (r: seq<string>)
    ensures |r| >= 1
    ensures forall k :: 0 <= k < |r| ==> sep !in r[k]
    ensures |r| == 1 <==> sep !in s
  {
    if |s| == 0 then [""]
    else
      var rest := Split(s[1..], sep);
      if s[0] == sep then [""] + rest
      else [[s[0]] + rest[0]] + rest[1..]
  }

  /** `parts.join(sep)`: the inverse of `Split`. */
  function Join(parts: seq<string>, sep: char): string
    requires |parts| >= 1
  {
    if |parts| == 1 then parts[0] else parts[0] + [sep] + Join(parts[1..], sep)
  }

  /** `attribute.split("_")[1]`: the second field, or `None` (`undefined`)
      when the name has no underscore. */
  function Token(attribute: string): (r: Option<string>)
    ensures r.Some? <==> Separator in attribute
    ensures r.Some? ==> Separator !in r.value
  {
    var parts := Split(attribute, Separator);
    if |parts| > 1 then Some(parts[1]) else None
  }

  /** Joining the pieces of a split gives back the original string. */
  lemma {:induction false} JoinSplit(s: string, sep: char)
    ensures Join(Split(s, sep), sep) == s
  {
    if |s| > 0 {
      JoinSplit(s[1..], sep);
      var rest := Split(s[1..], sep);
      if s[0] == sep {
        assert ([""] + rest)[1..] == rest;
      } else {
        var parts := [[s[0]] + rest[0]] + rest[1..];
        if |rest| > 1 {
          assert parts[1..] == rest[1..];
          assert Join(rest, sep) == rest[0] + [sep] + Join(rest[1..], sep);
        }
      }
    }
  }

  /** A string without the separator splits into itself alone. */
  lemma {:induction false} SplitWithoutSeparator(a: string, sep: char)
    requires sep !in a
    ensures Split(a, sep) == [a]
  {
    if |a| > 0 {
      SplitWithoutSeparator(a[1..], sep);
      assert [a[0]] + a[1..] == a;
    }
  }

  /** Splitting at the first separator peels off the piece before it. */
  lemma {:induction false} SplitAtFirst(a: string, sep: char, b: string)
    requires sep !in a
    ensures Split(a + [sep] + b, sep) == [a] + Split(b, sep)
  {
    var s := a + [sep] + b;
    if |a| == 0 {
      assert s[1..] == b;
    } else {
      assert s[1..] == a[1..] + [sep] + b;
      SplitAtFirst(a[1..], sep, b);
      assert [a[0]] + a[1..] == a;
    }
  }

  /** Splitting pieces that contain no separator gives back those pieces. */
  lemma {:induction false} SplitJoin(parts: seq<string>, sep: char)
    requires |parts| >= 1
    requires forall k :: 0 <= k < |parts| ==> sep !in parts[k]
    ensures Split(Join(parts, sep), sep) == parts
  {
    if |parts| == 1 {
      SplitWithoutSeparator(parts[0], sep);
    } else {
      SplitJoin(parts[1..], sep);
      SplitAtFirst(parts[0], sep, Join(parts[1..], sep));
      assert [parts[0]] + parts[1..] == parts;
    }
  }

  /** For a name `prefix_token`, or `prefix_token` followed by `_` and
      more, where `prefix` and `token` hold no underscore, the popup's year
      is `token`. */
  lemma YearTokenOfName(prefix: string, token: string, tail: string)
    requires Separator !in prefix && Separator !in token
    requires tail == [] || tail[0] == Separator
    ensures Token(prefix + [Separator] + token + tail) == Some(token)
  {
    assert prefix + [Separator] + token + tail == prefix + [Separator] + (token + tail);
    SplitAtFirst(prefix, Separator, token + tail);
    if tail == [] {
      assert token + tail == token;
      SplitWithoutSeparator(token, Separator);
    } else {
      assert token + tail == token + [Separator] + tail[1..];
      SplitAtFirst(token, Separator, tail[1..]);
    }
  }

  /** A name without an underscore has no year token. */
  lemma NoSeparatorNoToken(attribute: string)
    requires Separator !in attribute
    ensures Token(attribute) == None
  {
    SplitWithoutSeparator(attribute, Separator);
  }
}
