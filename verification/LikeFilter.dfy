/**
 * The text lookups of the list endpoint: the patterns they build and what those patterns mean
 * under LIKE and ILIKE (PostgreSQL documentation, section 9.7.1).
 *
 * ILIKE is LIKE after lower-casing both sides. `Fold` is any lower-casing that works one
 * character at a time, possibly to several characters, and leaves the metacharacters alone.
 */
module LikeFilter {
  import opened Options
  import opened Sequences

  // ---- LIKE

  datatype Token = Only(c: char) | AnyOne | AnySeq

  /** The pattern's tokens; a pattern that ends in a lone escape is an error. */
  function Parse(pattern: string): Option<seq<Token>> {
    if pattern == "" then Some([])
    else if pattern[0] == '\\' then
      if |pattern| == 1 then None else Before(Only(pattern[1]), Parse(pattern[2..]))
    else Before(Meaning(pattern[0]), Parse(pattern[1..]))
  }

  function Meaning(c: char): Token {
    if c == '%' then AnySeq else if c == '_' then AnyOne else Only(c)
  }

  function Before(token: Token, rest: Option<seq<Token>>): Option<seq<Token>> {
    if rest.None? then None else Some([token] + rest.value)
  }

  predicate Match(tokens: seq<Token>, text: string)
    decreases |tokens|, |text|
  {
    if tokens == [] then text == ""
    else match tokens[0]
      case Only(c) => text != "" && text[0] == c && Match(tokens[1..], text[1..])
      case AnyOne => text != "" && Match(tokens[1..], text[1..])
      case AnySeq => Match(tokens[1..], text) || (text != "" && Match(tokens, text[1..]))
  }

  predicate Like(pattern: string, text: string) {
    var tokens := Parse(pattern);
    tokens.Some? && Match(tokens.value, text)
  }

  /** Outside an escape the two wildcards are wild: any text, and any one character. */
  lemma WildcardsAreWild(text: string)
    ensures Like("%", text)
    ensures Like("_", text) <==> |text| == 1
    ensures Like("\\%", text) <==> text == "%"
    ensures Like("\\_", text) <==> text == "_"
  {
    assert "%"[1..] == "" && "_"[1..] == "" && "\\%"[2..] == "" && "\\_"[2..] == "";
    assert Parse("") == Some([]);
    assert [AnySeq] + [] == [AnySeq] && [AnyOne] + [] == [AnyOne];
    assert [Only('%')] + [] == [Only('%')] && [Only('_')] + [] == [Only('_')];
    AnySeqMatchesAll(text);
    assert Parse("_") == Some([AnyOne]);
    assert [AnyOne][1..] == [];
    if text != "" {
      assert Match([], text[1..]) <==> text[1..] == "";
      assert Match([AnyOne], text) <==> Match([], text[1..]);
    }
  }

  lemma {:induction false} AnySeqMatchesAll(text: string)
    ensures Match([AnySeq], text)
    decreases |text|
  {
    if text != "" {
      AnySeqMatchesAll(text[1..]);
    }
  }

  // ---- the matcher against the definition: one piece of the text per token

  predicate Fits(token: Token, piece: string) {
    match token
    case Only(c) => piece == [c]
    case AnyOne => |piece| == 1
    case AnySeq => true
  }

  function Joined(pieces: seq<string>): string {
    if pieces == [] then "" else pieces[0] + Joined(pieces[1..])
  }

  predicate Splits(tokens: seq<Token>, text: string, pieces: seq<string>) {
    && |pieces| == |tokens| && Joined(pieces) == text
    && forall i | 0 <= i < |tokens| :: Fits(tokens[i], pieces[i])
  }

  lemma {:induction false} MatchFindsPieces(tokens: seq<Token>, text: string) returns (pieces: seq<string>)
    requires Match(tokens, text)
    ensures Splits(tokens, text, pieces)
    decreases |tokens|, |text|
  {
    if tokens == [] {
      return [];
    }
    if tokens[0].AnySeq? {
      if Match(tokens[1..], text) {
        var rest := MatchFindsPieces(tokens[1..], text);
        pieces := [""] + rest;
        assert pieces[1..] == rest;
      } else {
        var rest := MatchFindsPieces(tokens, text[1..]);
        pieces := [[text[0]] + rest[0]] + rest[1..];
        assert pieces[1..] == rest[1..];
        assert Joined(pieces) == [text[0]] + Joined(rest);
      }
    } else {
      var rest := MatchFindsPieces(tokens[1..], text[1..]);
      pieces := [[text[0]]] + rest;
      assert pieces[1..] == rest;
    }
  }

  lemma {:induction false} PiecesMatch(tokens: seq<Token>, text: string, pieces: seq<string>)
    requires Splits(tokens, text, pieces)
    ensures Match(tokens, text)
    decreases |tokens|, |text|
  {
    if tokens != [] {
      var first := pieces[0];
      if tokens[0].AnySeq? && first != "" {
        var shorter := [first[1..]] + pieces[1..];
        assert shorter[1..] == pieces[1..];
        assert Joined(pieces) == first + Joined(pieces[1..]);
        assert text[1..] == first[1..] + Joined(pieces[1..]);
        PiecesMatch(tokens, text[1..], shorter);
      } else {
        assert text == first + Joined(pieces[1..]);
        assert text[|first|..] == Joined(pieces[1..]);
        PiecesMatch(tokens[1..], text[|first|..], pieces[1..]);
      }
    }
  }

  /** The matcher is the definition of LIKE: some split of the text fits the tokens in order. */
  lemma MatchIffSplits(tokens: seq<Token>, text: string)
    ensures Match(tokens, text) <==> exists pieces :: Splits(tokens, text, pieces)
  {
    if Match(tokens, text) {
      var pieces := MatchFindsPieces(tokens, text);
    }
    forall pieces | Splits(tokens, text, pieces)
      ensures Match(tokens, text)
    {
      PiecesMatch(tokens, text, pieces);
    }
  }

  // ---- escaping

  predicate Meta(c: char) {
    c == '\\' || c == '%' || c == '_'
  }

  /** `_like`: a backslash before every metacharacter. */
  function Escape(value: string): string {
    if value == "" then "" else (if Meta(value[0]) then ['\\', value[0]] else [value[0]]) + Escape(value[1..])
  }

  function Unescape(pattern: string): string {
    if pattern == "" then ""
    else if pattern[0] == '\\' && |pattern| > 1 then [pattern[1]] + Unescape(pattern[2..])
    else [pattern[0]] + Unescape(pattern[1..])
  }

  lemma {:induction false} EscapeAppends(a: string, b: string)
    ensures Escape(a + b) == Escape(a) + Escape(b)
  {
    if a == "" {
      assert a + b == b;
    } else {
      EscapeAppends(a[1..], b);
      var head := if Meta(a[0]) then ['\\', a[0]] else [a[0]];
      assert (a + b)[1..] == a[1..] + b;
      Associate(head, Escape(a[1..]), Escape(b));
    }
  }

  lemma {:induction false} UnescapeUndoes(value: string)
    ensures Unescape(Escape(value)) == value
  {
    if value != "" {
      UnescapeUndoes(value[1..]);
      var rest := Escape(value[1..]);
      if Meta(value[0]) {
        assert (['\\', value[0]] + rest)[2..] == rest;
      } else {
        assert ([value[0]] + rest)[1..] == rest;
      }
    }
  }

  /** Different values never share a pattern. */
  lemma EscapeIsInjective(v: string, w: string)
    requires Escape(v) == Escape(w)
    ensures v == w
  {
    UnescapeUndoes(v);
    UnescapeUndoes(w);
  }

  function Literal(value: string): seq<Token> {
    seq(|value|, i requires 0 <= i < |value| => Only(value[i]))
  }

  /** Parsing steps over one escaped character. */
  lemma ParseEscapedChar(c: char, after: string)
    requires Parse(after).Some?
    ensures Parse(Escape([c]) + after) == Some([Only(c)] + Parse(after).value)
  {
    assert [c][1..] == "";
    if Meta(c) {
      assert (Escape([c]) + after)[2..] == after;
    } else {
      assert (Escape([c]) + after)[1..] == after;
    }
  }

  lemma {:induction false} ParseEscaped(value: string, after: string)
    requires Parse(after).Some?
    ensures Parse(Escape(value) + after) == Some(Literal(value) + Parse(after).value)
  {
    if value == "" {
      assert Escape(value) + after == after;
      assert Literal(value) + Parse(after).value == Parse(after).value;
    } else {
      var c, rest := value[0], Escape(value[1..]) + after;
      ParseEscaped(value[1..], after);
      ParseEscapedChar(c, rest);
      assert Escape(value) + after == Escape([c]) + rest by {
        assert value == [c] + value[1..];
        EscapeAppends([c], value[1..]);
        Associate(Escape([c]), Escape(value[1..]), after);
      }
      assert [Only(c)] + (Literal(value[1..]) + Parse(after).value) == Literal(value) + Parse(after).value by {
        assert Literal(value) == [Only(c)] + Literal(value[1..]);
        Associate([Only(c)], Literal(value[1..]), Parse(after).value);
      }
    }
  }

  lemma {:induction false} MatchLiteral(value: string, tokens: seq<Token>, text: string)
    ensures Match(Literal(value) + tokens, text) <==> value <= text && Match(tokens, text[|value|..])
  {
    if value == "" {
      assert Literal(value) + tokens == tokens;
      assert text[0..] == text;
    } else {
      var all := Literal(value) + tokens;
      assert all[0] == Only(value[0]);
      assert all[1..] == Literal(value[1..]) + tokens;
      if text != "" {
        MatchLiteral(value[1..], tokens, text[1..]);
        assert value <= text <==> value[0] == text[0] && value[1..] <= text[1..];
        if value <= text {
          assert text[1..][|value| - 1..] == text[|value|..];
        }
      }
    }
  }

  lemma {:induction false} MatchAnySeq(tokens: seq<Token>, text: string)
    ensures Match([AnySeq] + tokens, text) <==> exists k | 0 <= k <= |text| :: Match(tokens, text[k..])
    decreases |text|
  {
    assert ([AnySeq] + tokens)[1..] == tokens;
    assert text[0..] == text;
    if text != "" {
      MatchAnySeq(tokens, text[1..]);
      if k :| 0 <= k <= |text| - 1 && Match(tokens, text[1..][k..]) {
        assert text[1..][k..] == text[k + 1..];
      }
      forall k | 0 < k <= |text| && Match(tokens, text[k..])
        ensures Match(tokens, text[1..][k - 1..])
      {
        assert text[1..][k - 1..] == text[k..];
      }
    }
  }

  // ---- what the built patterns mean

  predicate IsPart(value: string, text: string) {
    exists k | 0 <= k <= |text| :: value <= text[k..]
  }

  predicate EndsWith(text: string, value: string) {
    |value| <= |text| && text[|text| - |value|..] == value
  }

  /** An escaped value, with no wildcard around it, matches itself and nothing else. */
  lemma EscapedMatchesItself(value: string, text: string)
    ensures Like(Escape(value), text) <==> text == value
  {
    assert Escape(value) + "" == Escape(value);
    ParseEscaped(value, "");
    MatchLiteral(value, [], text);
    assert Literal(value) + [] == Literal(value);
  }

  lemma StartsWithIsPrefix(value: string, text: string)
    ensures Like(Escape(value) + "%", text) <==> value <= text
  {
    TrailingPercent(value, text);
  }

  /** A literal followed by `%` matches exactly the texts it starts. */
  lemma TrailingPercent(value: string, text: string)
    ensures Parse(Escape(value) + "%") == Some(Literal(value) + [AnySeq])
    ensures Match(Literal(value) + [AnySeq], text) <==> value <= text
  {
    assert Parse("%") == Some([AnySeq]) by {
      assert "%"[1..] == "" && Parse("") == Some([]);
      assert [Meaning('%')] + [] == [AnySeq];
    }
    ParseEscaped(value, "%");
    MatchLiteral(value, [AnySeq], text);
    if value <= text {
      var rest := text[|value|..];
      MatchAnySeq([], rest);
      assert [AnySeq] + [] == [AnySeq];
      assert Match([], rest[|rest|..]);
    }
  }

  lemma ContainsIsPart(value: string, text: string)
    ensures Like("%" + Escape(value) + "%", text) <==> IsPart(value, text)
  {
    var inner := Escape(value) + "%";
    assert "%" + Escape(value) + "%" == "%" + inner;
    assert ("%" + inner)[1..] == inner;
    TrailingPercent(value, text);
    MatchAnySeq(Literal(value) + [AnySeq], text);
    forall k | 0 <= k <= |text|
      ensures Match(Literal(value) + [AnySeq], text[k..]) <==> value <= text[k..]
    {
      TrailingPercent(value, text[k..]);
    }
  }

  lemma EndsWithIsSuffix(value: string, text: string)
    ensures Like("%" + Escape(value), text) <==> EndsWith(text, value)
  {
    assert Escape(value) + "" == Escape(value);
    ParseEscaped(value, "");
    assert Literal(value) + [] == Literal(value);
    assert ("%" + Escape(value))[1..] == Escape(value);
    MatchAnySeq(Literal(value), text);
    forall k | 0 <= k <= |text|
      ensures Match(Literal(value), text[k..]) <==> text[k..] == value
    {
      MatchLiteral(value, [], text[k..]);
    }
    if EndsWith(text, value) {
      assert Match(Literal(value), text[|text| - |value|..]);
    }
  }

  // ---- ILIKE

  ghost predicate KeepsMeta(fold: char -> string) {
    && (forall c | Meta(c) :: fold(c) == [c])
    && (forall c, d | !Meta(c) && d in fold(c) :: !Meta(d))
  }

  function Fold(fold: char -> string, text: string): string {
    if text == "" then "" else fold(text[0]) + Fold(fold, text[1..])
  }

  predicate ILike(fold: char -> string, pattern: string, text: string) {
    Like(Fold(fold, pattern), Fold(fold, text))
  }

  /** Lower-casing goes character by character; `FoldAppends` carries that to any text. */
  lemma FoldOfOne(fold: char -> string, c: char)
    ensures Fold(fold, "") == "" && Fold(fold, [c]) == fold(c)
  {
    assert [c][1..] == "" && fold(c) + "" == fold(c);
  }

  lemma {:induction false} FoldAppends(fold: char -> string, a: string, b: string)
    ensures Fold(fold, a + b) == Fold(fold, a) + Fold(fold, b)
  {
    if a == "" {
      assert a + b == b;
    } else {
      FoldAppends(fold, a[1..], b);
      assert (a + b)[1..] == a[1..] + b;
      Associate(fold(a[0]), Fold(fold, a[1..]), Fold(fold, b));
    }
  }

  lemma {:induction false} NothingToEscape(text: string)
    requires forall c | c in text :: !Meta(c)
    ensures Escape(text) == text
  {
    if text != "" {
      NothingToEscape(text[1..]);
    }
  }

  /** Folding an escaped value is escaping the folded value. */
  lemma {:induction false} FoldEscape(fold: char -> string, value: string)
    requires KeepsMeta(fold)
    ensures Fold(fold, Escape(value)) == Escape(Fold(fold, value))
  {
    if value != "" {
      var c, rest := value[0], value[1..];
      FoldEscape(fold, rest);
      EscapeAppends(fold(c), Fold(fold, rest));
      if Meta(c) {
        FoldAppends(fold, ['\\', c], Escape(rest));
        assert ['\\', c][1..] == [c] && [c][1..] == "";
        assert Fold(fold, ['\\', c]) == ['\\', c];
        assert Escape([c]) == ['\\', c];
      } else {
        FoldAppends(fold, [c], Escape(rest));
        assert [c][1..] == "";
        assert Fold(fold, [c]) == fold(c);
        NothingToEscape(fold(c));
      }
    }
  }

  // ---- the lookups by name

  const PATTERN_LOOKUPS := {"iexact", "contains", "icontains", "startswith", "istartswith", "endswith", "iendswith"}

  /** `_PATTERNS[op](value)`. */
  function Pattern(op: string, value: string): string
    requires op in PATTERN_LOOKUPS
  {
    if op == "iexact" then Escape(value)
    else if op in {"contains", "icontains"} then "%" + Escape(value) + "%"
    else if op in {"startswith", "istartswith"} then Escape(value) + "%"
    else "%" + Escape(value)
  }

  predicate IgnoresCase(op: string) {
    op != "" && op[0] == 'i'
  }

  /** `column.ilike(...)` for the operators that start with i, `column.like(...)` otherwise. */
  predicate TextLookup(fold: char -> string, op: string, value: string, text: string)
    requires op in PATTERN_LOOKUPS
  {
    if IgnoresCase(op) then ILike(fold, Pattern(op, value), text) else Like(Pattern(op, value), text)
  }

  /** What the lookup's name says, on the raw value, with no mention of patterns. */
  predicate Says(op: string, value: string, text: string)
    requires op in PATTERN_LOOKUPS
  {
    if op == "iexact" then text == value
    else if op in {"contains", "icontains"} then IsPart(value, text)
    else if op in {"startswith", "istartswith"} then value <= text
    else EndsWith(text, value)
  }

  lemma PatternSays(op: string, value: string, text: string)
    requires op in PATTERN_LOOKUPS
    ensures Like(Pattern(op, value), text) <==> Says(op, value, text)
  {
    if op == "iexact" {
      EscapedMatchesItself(value, text);
    } else if op in {"contains", "icontains"} {
      ContainsIsPart(value, text);
    } else if op in {"startswith", "istartswith"} {
      StartsWithIsPrefix(value, text);
    } else {
      EndsWithIsSuffix(value, text);
    }
  }

  lemma FoldPattern(fold: char -> string, op: string, value: string)
    requires op in PATTERN_LOOKUPS && KeepsMeta(fold)
    ensures Fold(fold, Pattern(op, value)) == Pattern(op, Fold(fold, value))
  {
    var e := Escape(value);
    FoldEscape(fold, value);
    assert Fold(fold, "%") == "%" by {
      assert "%"[1..] == "";
    }
    FoldAppends(fold, "%", e);
    FoldAppends(fold, e, "%");
    FoldAppends(fold, "%" + e, "%");
  }

  /** Every text lookup treats every character of the client's value literally, up to case for four of them. */
  lemma TextLookupIsLiteral(fold: char -> string, op: string, value: string, text: string)
    requires op in PATTERN_LOOKUPS && KeepsMeta(fold)
    ensures op == "contains" ==> (TextLookup(fold, op, value, text) <==> IsPart(value, text))
    ensures op == "startswith" ==> (TextLookup(fold, op, value, text) <==> value <= text)
    ensures op == "endswith" ==> (TextLookup(fold, op, value, text) <==> EndsWith(text, value))
    ensures op == "iexact" ==> (TextLookup(fold, op, value, text) <==> Fold(fold, text) == Fold(fold, value))
    ensures op == "icontains" ==> (TextLookup(fold, op, value, text) <==> IsPart(Fold(fold, value), Fold(fold, text)))
    ensures op == "istartswith" ==> (TextLookup(fold, op, value, text) <==> Fold(fold, value) <= Fold(fold, text))
    ensures op == "iendswith" ==> (TextLookup(fold, op, value, text) <==> EndsWith(Fold(fold, text), Fold(fold, value)))
  {
    LookupSays(fold, op, value, text);
  }

  lemma LookupSays(fold: char -> string, op: string, value: string, text: string)
    requires op in PATTERN_LOOKUPS && KeepsMeta(fold)
    ensures TextLookup(fold, op, value, text) <==>
            if IgnoresCase(op) then Says(op, Fold(fold, value), Fold(fold, text)) else Says(op, value, text)
  {
    if IgnoresCase(op) {
      FoldPattern(fold, op, value);
      PatternSays(op, Fold(fold, value), Fold(fold, text));
    } else {
      PatternSays(op, value, text);
    }
  }

  /** No client value makes the database reject the pattern. */
  lemma PatternsAreWellFormed(op: string, value: string)
    requires op in PATTERN_LOOKUPS
    ensures Parse(Pattern(op, value)).Some?
  {
    assert Escape(value) + "" == Escape(value);
    ParseEscaped(value, "");
    TrailingPercent(value, "");
    assert ("%" + Escape(value))[1..] == Escape(value);
    assert "%" + Escape(value) + "%" == "%" + (Escape(value) + "%");
    assert ("%" + (Escape(value) + "%"))[1..] == Escape(value) + "%";
  }
}
