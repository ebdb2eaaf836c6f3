/** Splitting a search query into filters and free text (query/parser.go). Quotes protect spaces; a
    quote that is never closed runs to the end of the input. */
module QueryParser {
  import opened Collections

  // ---------------------------------------------------------------- tokens

  /** The separators of tokens. */
  predicate IsSpace(c: char) { c == ' ' || c == '\t' || c == '\n' || c == '\r' }

  function IndexOf(s: string, c: char): Option<nat> {
    if s == "" then None
    else if s[0] == c then Some(0)
    else match IndexOf(s[1..], c) case None => None case Some(i) => Some(i + 1)
  }

  lemma {:induction false} IndexOfIs(s: string, c: char)
    ensures IndexOf(s, c).None? <==> c !in s
    ensures var i := IndexOf(s, c); i.Some? ==> i.value < |s| && s[i.value] == c && c !in s[..i.value]
  {
    if s != "" && s[0] != c {
      IndexOfIs(s[1..], c);
      assert s == [s[0]] + s[1..];
      if IndexOf(s, c).Some? { assert s[..IndexOf(s, c).value] == [s[0]] + s[1..][..IndexOf(s[1..], c).value]; }
    }
  }

  /** How the token at the start of `s` ends: its length, and whether within an unclosed quote. */
  datatype Scan = Scan(length: nat, open: bool)

  function ScanToken(s: string): (r: Scan)
    ensures r.length <= |s| && (r.open ==> r.length == |s|)
    decreases |s|
  {
    if s == "" || IsSpace(s[0]) then Scan(0, false)
    else if s[0] == '"' then
      IndexOfIs(s[1..], '"');
      match IndexOf(s[1..], '"')
      case None => Scan(|s|, true)
      case Some(i) => var rest := ScanToken(s[i + 2..]); Scan(i + 2 + rest.length, rest.open)
    else var rest := ScanToken(s[1..]); Scan(1 + rest.length, rest.open)
  }

  function Tokens(s: string): seq<string>
    decreases |s|
  {
    if s == "" then []
    else if IsSpace(s[0]) then Tokens(s[1..])
    else
      TokenIsNotEmpty(s);
      var n := ScanToken(s).length;
      [s[..n]] + Tokens(s[n..])
  }

  lemma TokenIsNotEmpty(s: string)
    requires s != "" && !IsSpace(s[0])
    ensures 0 < ScanToken(s).length
  {
  }

  /** One whole token, with all quotes closed. */
  predicate Closed(t: string) { t != "" && ScanToken(t) == Scan(|t|, false) }

  /** One whole token that ends within a quote. */
  predicate Open(t: string) { ScanToken(t) == Scan(|t|, true) }

  predicate Starts(s: string) { s != "" && IsSpace(s[0]) }

  /** A closed token stays a token before the end or a separator. */
  lemma {:induction false} ClosedBefore(t: string, r: string)
    requires ScanToken(t) == Scan(|t|, false) && (r == "" || Starts(r))
    ensures ScanToken(t + r) == Scan(|t|, false)
    decreases |t|
  {
    if t == "" {
      assert t + r == r;
    } else {
      assert (t + r)[0] == t[0];
      if t[0] == '"' {
        IndexOfIs(t[1..], '"');
        var i := IndexOf(t[1..], '"').value;
        assert (t + r)[1..] == t[1..] + r;
        FirstIndexStays(t[1..], r, '"');
        assert (t + r)[i + 2..] == t[i + 2..] + r;
        ClosedBefore(t[i + 2..], r);
      } else {
        assert (t + r)[1..] == t[1..] + r;
        ClosedBefore(t[1..], r);
      }
    }
  }

  lemma {:induction false} FirstIndexStays(s: string, r: string, c: char)
    requires IndexOf(s, c).Some?
    ensures IndexOf(s + r, c) == IndexOf(s, c)
  {
    assert (s + r)[0] == s[0];
    if s[0] != c {
      assert (s + r)[1..] == s[1..] + r;
      FirstIndexStays(s[1..], r, c);
    }
  }

  /** The three ways in which a scan goes on. */
  lemma ScanCases(s: string)
    ensures s == "" || IsSpace(s[0]) ==> ScanToken(s) == Scan(0, false)
    ensures s != "" && !IsSpace(s[0]) && s[0] != '"' ==>
              ScanToken(s) == Scan(1 + ScanToken(s[1..]).length, ScanToken(s[1..]).open)
    ensures s != "" && s[0] == '"' && IndexOf(s[1..], '"').None? ==> ScanToken(s) == Scan(|s|, true)
    ensures s != "" && s[0] == '"' && IndexOf(s[1..], '"').Some? ==>
              var i := IndexOf(s[1..], '"').value;
              i + 2 <= |s| && ScanToken(s) == Scan(i + 2 + ScanToken(s[i + 2..]).length, ScanToken(s[i + 2..]).open)
  {
    if s != "" { IndexOfIs(s[1..], '"'); }
  }

  /** What was scanned as a token is one by itself. */
  lemma {:induction false} TokenAlone(s: string)
    ensures var n := ScanToken(s).length; ScanToken(s[..n]) == ScanToken(s)
    decreases |s|
  {
    hide ScanToken, IndexOf;
    var r := ScanToken(s);
    var t := s[..r.length];
    ScanCases(s);
    ScanCases(t);
    if s != "" && !IsSpace(s[0]) {
      if s[0] != '"' {
        TokenAlone(s[1..]);
        assert t[1..] == s[1..][..r.length - 1];
      } else if IndexOf(s[1..], '"').None? {
        assert t == s;
      } else {
        var i := IndexOf(s[1..], '"').value;
        TokenAlone(s[i + 2..]);
        assert t[i + 2..] == s[i + 2..][..r.length - i - 2];
        assert t[1..] == s[1..][..r.length - 1];
        IndexOfPrefix(s[1..], '"', r.length - 1);
      }
    }
  }

  lemma {:induction false} IndexOfPrefix(s: string, c: char, n: nat)
    requires IndexOf(s, c).Some? && IndexOf(s, c).value < n <= |s|
    ensures IndexOf(s[..n], c) == IndexOf(s, c)
  {
    assert s[..n][0] == s[0];
    if s[0] != c {
      assert s[..n][1..] == s[1..][..n - 1];
      IndexOfPrefix(s[1..], c, n - 1);
    }
  }

  /** All tokens are closed, except that the last may be open. */
  predicate Tokenised(ts: seq<string>) {
    forall i | 0 <= i < |ts| :: Closed(ts[i]) || (i == |ts| - 1 && Open(ts[i]))
  }

  lemma {:induction false} TokensAreTokens(s: string)
    ensures Tokenised(Tokens(s))
    decreases |s|
  {
    if s != "" {
      if IsSpace(s[0]) {
        TokensAreTokens(s[1..]);
      } else {
        TokenIsNotEmpty(s);
        TokenAlone(s);
        var n := ScanToken(s).length;
        TokensAreTokens(s[n..]);
        assert ScanToken(s).open ==> s[n..] == "";
      }
    }
  }

  function Join(ts: seq<string>): string {
    if ts == [] then "" else if |ts| == 1 then ts[0] else ts[0] + " " + Join(ts[1..])
  }

  lemma {:induction false} JoinedTokensSplit(ts: seq<string>)
    requires Tokenised(ts)
    ensures Tokens(Join(ts)) == ts
  {
    if ts != [] {
      var t := ts[0];
      if |ts| == 1 {
        assert t[..|t|] == t && t[|t|..] == "";
        assert ts == [t];
      } else {
        assert Closed(t);
        assert forall i | 0 <= i < |ts| - 1 :: ts[1..][i] == ts[i + 1];
        JoinedTokensSplit(ts[1..]);
        var j := Join(ts);
        var r := " " + Join(ts[1..]);
        assert j == t + r;
        ClosedBefore(t, r);
        assert j[..|t|] == t && j[|t|..] == r && r[1..] == Join(ts[1..]);
        assert j[0] == t[0];
        assert ts == [t] + ts[1..];
      }
    }
  }

  /** Splitting the joined tokens again gives the same tokens, an unclosed last quote included. */
  lemma RetokeniseIsStable(s: string)
    ensures Tokens(Join(Tokens(s))) == Tokens(s)
  {
    TokensAreTokens(s);
    JoinedTokensSplit(Tokens(s));
  }

  // ---------------------------------------------------------------- filters

  /** The recognised values, and the lower-casing of the standard library. */
  datatype Vocabulary = Vocabulary(kinds: set<string>, languages: set<string>, lower: string -> string) {
    /** No value contains a quote, and lower-casing does not lose one. */
    ghost predicate Valid() {
      && (forall v | v in kinds + languages :: '"' !in v)
      && (forall s | '"' in s :: '"' in lower(s))
    }
  }

  datatype Part = Text | Kind(value: string) | Language(value: string) | Path(value: string) | Name(value: string)

  function Unquote(s: string): string {
    if |s| >= 2 && s[0] == '"' && s[|s| - 1] == '"' then s[1..|s| - 1] else s
  }

  /** What a token is: part of the text, or one filter. */
  function Classify(tok: string, v: Vocabulary): Part {
    IndexOfIs(tok, ':');
    var colon := IndexOf(tok, ':');
    if colon.None? || colon.value == 0 || colon.value == |tok| - 1 then Text
    else Filter(v.lower(tok[..colon.value]), Unquote(tok[colon.value + 1..]), v)
  }

  function Filter(key: string, value: string, v: Vocabulary): Part {
    if value == "" then Text
    else if key == "kind" then (if value in v.kinds then Kind(value) else Text)
    else if key == "lang" || key == "language" then (if v.lower(value) in v.languages then Language(v.lower(value)) else Text)
    else if key == "path" then Path(value)
    else if key == "name" then Name(value)
    else Text
  }

  function TextTokens(ts: seq<string>, v: Vocabulary): seq<string> {
    Select(ts, (t: string) => Classify(t, v).Text?)
  }

  /** The filters among the tokens, in order. */
  function Filters(ts: seq<string>, v: Vocabulary): seq<Part> {
    if ts == [] then []
    else
      var n := |ts| - 1;
      Filters(ts[..n], v) + if Classify(ts[n], v).Text? then [] else [Classify(ts[n], v)]
  }

  // ---------------------------------------------------------------- trimming

  /** The white space of Unicode, which is what trimming removes. */
  predicate IsUnicodeSpace(c: char) {
    c == ' ' || '\t' <= c <= '\r' || c == '\U{0085}' || c == '\U{00A0}' || c == '\U{1680}' || '\U{2000}' <= c <= '\U{200A}'
    || c == '\U{2028}' || c == '\U{2029}' || c == '\U{202F}' || c == '\U{205F}' || c == '\U{3000}'
  }

  function TrimRight(s: string): string {
    if s != "" && IsUnicodeSpace(s[|s| - 1]) then TrimRight(s[..|s| - 1]) else s
  }

  function TrimLeft(s: string): string {
    if s != "" && IsUnicodeSpace(s[0]) then TrimLeft(s[1..]) else s
  }

  function TrimSpace(s: string): string { TrimRight(TrimLeft(s)) }

  datatype ParsedQuery = ParsedQuery(text: string, filters: seq<Part>)

  function Parse(raw: string, v: Vocabulary): ParsedQuery {
    var ts := Tokens(raw);
    ParsedQuery(TrimSpace(Join(TextTokens(ts, v))), Filters(ts, v))
  }

  /** The only white space is what separates tokens. */
  predicate PlainSpaces(s: string) { forall c | c in s && IsUnicodeSpace(c) :: IsSpace(c) }

  // ---------------------------------------------------------------- quotes in an open token

  function Quotes(s: string): nat {
    if s == "" then 0 else (if s[0] == '"' then 1 else 0) + Quotes(s[1..])
  }

  lemma {:induction false} QuotesAppend(a: string, b: string)
    ensures Quotes(a + b) == Quotes(a) + Quotes(b)
  {
    if a == "" {
      assert a + b == b;
    } else {
      assert (a + b)[1..] == a[1..] + b;
      QuotesAppend(a[1..], b);
    }
  }

  lemma {:induction false} NoQuotes(s: string)
    ensures Quotes(s) == 0 <==> '"' !in s
  {
    if s != "" {
      NoQuotes(s[1..]);
      assert s == [s[0]] + s[1..];
    }
  }

  /** A closed quote at the start accounts for two. */
  lemma QuotedPrefix(t: string, i: nat)
    requires |t| > 0 && t[0] == '"' && IndexOf(t[1..], '"') == Some(i)
    ensures i + 2 <= |t| && Quotes(t) == 2 + Quotes(t[i + 2..])
  {
    var u := t[1..];
    IndexOfIs(u, '"');
    assert u == u[..i] + u[i..];
    QuotesAppend(u[..i], u[i..]);
    NoQuotes(u[..i]);
    assert u[i..][1..] == t[i + 2..];
  }

  /** An open token has an odd number of quotes. */
  lemma {:induction false} OpenIsOdd(t: string)
    requires Open(t)
    ensures Quotes(t) % 2 == 1
    decreases |t|
  {
    hide IndexOf;
    if t[0] == '"' {
      IndexOfIs(t[1..], '"');
      var q := IndexOf(t[1..], '"');
      if q.None? {
        NoQuotes(t[1..]);
      } else {
        QuotedPrefix(t, q.value);
        OpenIsOdd(t[q.value + 2..]);
      }
    } else {
      OpenIsOdd(t[1..]);
    }
  }

  lemma NoQuoteShortened(s: string)
    requires s != "" && IndexOf(s, '"').None?
    ensures IndexOf(s[..|s| - 1], '"').None?
  {
    IndexOfIs(s, '"');
    IndexOfIs(s[..|s| - 1], '"');
    assert forall c | c in s[..|s| - 1] :: c in s;
  }

  /** Without its last character, unless that is a quote, an open token is still open. */
  lemma {:induction false} OpenShortened(t: string)
    requires Open(t) && t[|t| - 1] != '"'
    ensures |t| > 1 && Open(t[..|t| - 1])
    decreases |t|
  {
    hide ScanToken, IndexOf;
    ScanCases(t);
    var u := t[..|t| - 1];
    ScanCases(u);
    if t[0] == '"' {
      assert u[1..] == t[1..][..|t| - 2];
      if IndexOf(t[1..], '"').None? {
        NoQuoteShortened(t[1..]);
      } else {
        var i := IndexOf(t[1..], '"').value;
        var rest := t[i + 2..];
        ScanCases(rest);
        OpenShortened(rest);
        IndexOfPrefix(t[1..], '"', |t| - 2);
        assert u[i + 2..] == rest[..|rest| - 1];
      }
    } else {
      var rest := t[1..];
      ScanCases(rest);
      OpenShortened(rest);
      assert u[1..] == rest[..|rest| - 1];
    }
  }

  /** A closed token does not end in a separator. */
  lemma {:induction false} ClosedEnds(t: string)
    requires Closed(t)
    ensures !IsSpace(t[|t| - 1])
    decreases |t|
  {
    if t[0] == '"' {
      IndexOfIs(t[1..], '"');
      var i := IndexOf(t[1..], '"').value;
      if t[i + 2..] != "" { ClosedEnds(t[i + 2..]); }
    } else if |t| > 1 {
      ClosedEnds(t[1..]);
    }
  }

  /** The value part of an open token whose key has no quote keeps a quote, even when unquoted. */
  lemma OpenValueHasQuote(t: string, colon: nat)
    requires Open(t) && colon < |t| && '"' !in t[..colon + 1]
    ensures '"' in Unquote(t[colon + 1..])
  {
    var value := t[colon + 1..];
    OpenIsOdd(t);
    assert t == t[..colon + 1] + value;
    QuotesAppend(t[..colon + 1], value);
    NoQuotes(t[..colon + 1]);
    NoQuotes(value);
    if |value| >= 2 && value[0] == '"' && value[|value| - 1] == '"' {
      var inner := value[1..|value| - 1];
      assert value == ['"'] + (inner + ['"']);
      QuotesAppend(['"'], inner + ['"']);
      QuotesAppend(inner, ['"']);
      assert Quotes(['"']) == 1;
      NoQuotes(inner);
    }
  }

  /** Neither a kind nor a language filter can come from a value with a quote. */
  lemma QuotedValueIsNoFilter(key: string, value: string, v: Vocabulary)
    requires v.Valid() && '"' in value && key in {"kind", "lang", "language"}
    ensures Filter(key, value, v).Text?
  {
    assert value !in v.kinds && v.lower(value) !in v.languages;
  }

  lemma ClassifyAt(t: string, c: nat, v: Vocabulary)
    requires IndexOf(t, ':') == Some(c) && 0 < c < |t| - 1
    ensures Classify(t, v) == Filter(v.lower(t[..c]), Unquote(t[c + 1..]), v)
  {
  }

  /** An open token that is text stays text when a trailing separator is dropped. */
  lemma ShortenedTextIsText(t: string, v: Vocabulary)
    requires v.Valid() && Open(t) && IsSpace(t[|t| - 1]) && Classify(t, v).Text?
    ensures Classify(t[..|t| - 1], v).Text?
  {
    var u := t[..|t| - 1];
    OpenShortened(t);
    hide ScanToken, IndexOf, Quotes, Filter;
    IndexOfIs(u, ':');
    var colon := IndexOf(u, ':');
    if colon.Some? && 0 < colon.value < |u| - 1 {
      var c := colon.value;
      IndexOfPrefixBack(t, ':', |u|);
      assert u[..c] == t[..c];
      ClassifyAt(t, c, v);
      ClassifyAt(u, c, v);
      assert Unquote(t[c + 1..]) == t[c + 1..];
      OpenTextShortened(t, u, c, v);
    }
  }

  lemma OpenTextShortened(t: string, u: string, c: nat, v: Vocabulary)
    requires v.Valid() && Open(u) && 0 < c < |u| - 1 && u[c] == ':' && |t| == |u| + 1 && t[..c] == u[..c]
    requires Filter(v.lower(t[..c]), t[c + 1..], v).Text?
    ensures Filter(v.lower(u[..c]), Unquote(u[c + 1..]), v).Text?
  {
    hide ScanToken, IndexOf, Quotes;
    var key := v.lower(u[..c]);
    if key in {"kind", "lang", "language"} {
      PlainKey(u[..c], v);
      assert u[..c + 1] == u[..c] + [':'];
      OpenValueHasQuote(u, c);
      QuotedValueIsNoFilter(key, Unquote(u[c + 1..]), v);
    }
  }

  lemma PlainKey(s: string, v: Vocabulary)
    requires v.Valid() && v.lower(s) in {"kind", "lang", "language"}
    ensures '"' !in s
  {
    assert '"' !in "kind" && '"' !in "lang" && '"' !in "language";
  }

  lemma {:induction false} IndexOfPrefixBack(s: string, c: char, n: nat)
    requires n <= |s| && IndexOf(s[..n], c).Some?
    ensures IndexOf(s, c) == IndexOf(s[..n], c)
  {
    IndexOfIs(s[..n], c);
    assert s[..n][0] == s[0];
    if s[0] != c {
      assert s[..n][1..] == s[1..][..n - 1];
      IndexOfPrefixBack(s[1..], c, n - 1);
    }
  }

  /** Trimming an open text token leaves an open text token. */
  lemma {:induction false} TrimmedOpenText(t: string, v: Vocabulary)
    requires v.Valid() && Open(t) && Classify(t, v).Text? && PlainSpaces(t)
    ensures Open(TrimRight(t)) && Classify(TrimRight(t), v).Text?
    decreases |t|
  {
    if IsUnicodeSpace(t[|t| - 1]) {
      assert t[|t| - 1] in t && IsSpace(t[|t| - 1]);
      OpenShortened(t);
      ShortenedTextIsText(t, v);
      assert forall c | c in t[..|t| - 1] :: c in t;
      TrimmedOpenText(t[..|t| - 1], v);
    }
  }

  // ---------------------------------------------------------------- parsing the text again

  lemma {:induction false} TextTokensAre(ts: seq<string>, v: Vocabulary)
    requires Tokenised(ts)
    ensures Tokenised(TextTokens(ts, v))
    ensures forall t | t in TextTokens(ts, v) :: t in ts && Classify(t, v).Text?
    ensures forall t | t in TextTokens(ts, v) && Open(t) :: TextTokens(ts, v)[|TextTokens(ts, v)| - 1] == t
  {
    if ts != [] {
      var n := |ts| - 1;
      assert forall i | 0 <= i < n :: ts[..n][i] == ts[i];
      forall i | 0 <= i < n ensures Closed(ts[..n][i]) { assert Closed(ts[i]); }
      AllClosed(ts[..n], v);
      TextTokensAre(ts[..n], v);
      assert ts == ts[..n] + [ts[n]];
    }
  }

  lemma AllClosed(ts: seq<string>, v: Vocabulary)
    requires forall i | 0 <= i < |ts| :: Closed(ts[i])
    ensures forall i | 0 <= i < |TextTokens(ts, v)| :: Closed(TextTokens(ts, v)[i])
  {
    hide Closed;
    SelectMembers(ts, (t: string) => Classify(t, v).Text?);
    forall i | 0 <= i < |TextTokens(ts, v)| ensures Closed(TextTokens(ts, v)[i]) {
      assert TextTokens(ts, v)[i] in TextTokens(ts, v);
      assert TextTokens(ts, v)[i] in ts;
    }
  }

  lemma {:induction false} AllTextStays(ts: seq<string>, v: Vocabulary)
    requires forall t | t in ts :: Classify(t, v).Text?
    ensures TextTokens(ts, v) == ts && Filters(ts, v) == []
  {
    if ts != [] {
      assert forall t | t in ts[..|ts| - 1] :: t in ts;
      AllTextStays(ts[..|ts| - 1], v);
    }
  }

  lemma {:induction false} TokensWithin(s: string)
    ensures forall t, c | t in Tokens(s) && c in t :: c in s
    decreases |s|
  {
    if s != "" {
      if IsSpace(s[0]) {
        TokensWithin(s[1..]);
      } else {
        TokenIsNotEmpty(s);
        var n := ScanToken(s).length;
        TokensWithin(s[n..]);
        assert forall c | c in s[..n] :: c in s;
        assert forall c | c in s[n..] :: c in s;
      }
    }
  }

  lemma {:induction false} JoinLast(ts: seq<string>, last: string)
    ensures Join(ts + [last]) == (if ts == [] then "" else Join(ts) + " ") + last
  {
    if ts == [] {
      assert [] + [last] == [last];
    } else {
      assert (ts + [last])[1..] == ts[1..] + [last] && (ts + [last])[0] == ts[0];
      JoinLast(ts[1..], last);
    }
  }

  // ---------------------------------------------------------------- trimming a list of tokens

  /** Blank tokens in front go, and the first of the others is trimmed. */
  function TrimFront(ts: seq<string>): seq<string> {
    if ts == [] then []
    else if TrimLeft(ts[0]) == "" then TrimFront(ts[1..])
    else [TrimLeft(ts[0])] + ts[1..]
  }

  function TrimBack(ts: seq<string>): seq<string> {
    if ts == [] then []
    else
      var n := |ts| - 1;
      if TrimRight(ts[n]) == "" then TrimBack(ts[..n]) else ts[..n] + [TrimRight(ts[n])]
  }

  lemma {:induction false} TrimLeftAppend(a: string, b: string)
    ensures TrimLeft(a + b) == if TrimLeft(a) == "" then TrimLeft(b) else TrimLeft(a) + b
  {
    hide IsUnicodeSpace;
    if a == "" {
      assert a + b == b;
    } else if IsUnicodeSpace(a[0]) {
      assert (a + b)[1..] == a[1..] + b;
      TrimLeftAppend(a[1..], b);
    }
  }

  lemma {:induction false} TrimRightAppend(a: string, b: string)
    ensures TrimRight(a + b) == if TrimRight(b) == "" then TrimRight(a) else a + TrimRight(b)
    decreases |b|
  {
    hide IsUnicodeSpace;
    if b == "" {
      assert a + b == a;
    } else {
      assert (a + b)[|a + b| - 1] == b[|b| - 1];
      if IsUnicodeSpace(b[|b| - 1]) {
        assert (a + b)[..|a + b| - 1] == a + b[..|b| - 1];
        TrimRightAppend(a, b[..|b| - 1]);
      }
    }
  }

  lemma BlankIsTrimmed(s: string)
    ensures TrimLeft(" " + s) == TrimLeft(s) && TrimRight(s + " ") == TrimRight(s)
  {
    assert (" " + s)[1..] == s && (s + " ")[..|s|] == s;
  }

  /** Trimming joined tokens is joining the trimmed tokens. */
  lemma {:induction false} TrimLeftTokens(ts: seq<string>)
    ensures TrimLeft(Join(ts)) == Join(TrimFront(ts))
  {
    hide TrimLeft;
    if ts == [] {
      assert TrimLeft("") == "" by { NothingToTrim(); }
    } else {
      JoinFirst(ts[0], ts[1..]);
      assert ts == [ts[0]] + ts[1..];
      var rest := if ts[1..] == [] then "" else " " + Join(ts[1..]);
      TrimLeftAppend(ts[0], rest);
      if TrimLeft(ts[0]) == "" {
        TrimLeftTokens(ts[1..]);
        BlankIsTrimmed(Join(ts[1..]));
      } else {
        JoinFirst(TrimLeft(ts[0]), ts[1..]);
      }
    }
  }

  lemma {:induction false} TrimRightTokens(ts: seq<string>)
    ensures TrimRight(Join(ts)) == Join(TrimBack(ts))
    decreases |ts|
  {
    hide TrimRight;
    if ts == [] {
      NothingToTrim();
    } else {
      var n := |ts| - 1;
      JoinLast(ts[..n], ts[n]);
      assert ts == ts[..n] + [ts[n]];
      var front := if ts[..n] == [] then "" else Join(ts[..n]) + " ";
      TrimRightAppend(front, ts[n]);
      if TrimRight(ts[n]) == "" {
        TrimRightTokens(ts[..n]);
        BlankIsTrimmed(Join(ts[..n]));
      } else {
        JoinLast(ts[..n], TrimRight(ts[n]));
      }
    }
  }

  lemma NothingToTrim()
    ensures TrimLeft("") == "" && TrimRight("") == ""
  {
  }

  lemma JoinFirst(first: string, ts: seq<string>)
    ensures Join([first] + ts) == first + if ts == [] then "" else " " + Join(ts)
  {
    assert ([first] + ts)[1..] == ts;
    if ts == [] { assert [first] + ts == [first]; }
  }

  /** One whole token, its last quote closed or not. */
  predicate Token(t: string) { Closed(t) || Open(t) }

  /** Trimming the front of a token leaves a token of the same kind or nothing. */
  lemma {:induction false} TokenTrimmedLeft(t: string)
    requires Token(t)
    ensures TrimLeft(t) == "" ==> Closed(t)
    ensures TrimLeft(t) != "" ==> if Closed(t) then Closed(TrimLeft(t)) else Open(TrimLeft(t))
  {
    hide ScanToken;
    ScanCases(t);
    if t != "" && IsUnicodeSpace(t[0]) {
      ScanCases(t[1..]);
      if t[1..] != "" { TokenTrimmedLeft(t[1..]); } else { NothingToTrim(); }
    }
  }

  /** Without its last character, unless that is a quote, a closed token is closed or nothing. */
  lemma {:induction false} ClosedShortened(t: string)
    requires Closed(t) && t[|t| - 1] != '"'
    ensures |t| == 1 || Closed(t[..|t| - 1])
    decreases |t|
  {
    hide ScanToken, IndexOf;
    ScanCases(t);
    var u := t[..|t| - 1];
    ScanCases(u);
    if t[0] == '"' {
      IndexOfIs(t[1..], '"');
      var i := IndexOf(t[1..], '"').value;
      var rest := t[i + 2..];
      ScanCases(rest);
      assert t[i + 1] == t[1..][i];
      ClosedShortened(rest);
      assert u[1..] == t[1..][..|t| - 2];
      IndexOfPrefix(t[1..], '"', |t| - 2);
      assert u[i + 2..] == rest[..|rest| - 1];
      ScanCases(u[i + 2..]);
    } else if |t| > 1 {
      var rest := t[1..];
      ScanCases(rest);
      ClosedShortened(rest);
      assert u[1..] == rest[..|rest| - 1];
      ScanCases(u[1..]);
    }
  }

  lemma {:induction false} TokenTrimmedRight(t: string)
    requires Token(t)
    ensures TrimRight(t) == "" ==> Closed(t)
    ensures TrimRight(t) != "" ==> if Closed(t) then Closed(TrimRight(t)) else Open(TrimRight(t))
    decreases |t|
  {
    hide ScanToken;
    ScanCases(t);
    if t != "" && IsUnicodeSpace(t[|t| - 1]) {
      var u := t[..|t| - 1];
      if Closed(t) {
        ClosedShortened(t);
        if |t| == 1 { NothingToTrim(); } else { TokenTrimmedRight(u); }
      } else {
        OpenShortened(t);
        TokenTrimmedRight(u);
      }
    }
  }

  lemma {:induction false} FrontIsTokenised(ts: seq<string>)
    requires Tokenised(ts)
    ensures Tokenised(TrimFront(ts))
  {
    hide Closed, Open, TrimLeft;
    if ts != [] {
      TokenTrimmedLeft(ts[0]);
      assert forall i | 0 <= i < |ts| - 1 :: ts[1..][i] == ts[i + 1];
      FrontIsTokenised(ts[1..]);
      NotBoth(ts[0]);
    }
  }

  lemma {:induction false} BackIsTokenised(ts: seq<string>)
    requires Tokenised(ts)
    ensures Tokenised(TrimBack(ts))
    decreases |ts|
  {
    hide Closed, Open, TrimRight;
    if ts != [] {
      var n := |ts| - 1;
      TokenTrimmedRight(ts[n]);
      assert forall i | 0 <= i < n :: ts[..n][i] == ts[i];
      BackIsTokenised(ts[..n]);
    }
  }

  lemma NotBoth(t: string)
    ensures !(Closed(t) && Open(t))
  {
  }

  // ---------------------------------------------------------------- when parsing again is stable

  /** The tokens of the free text: those of the query that are text, trimmed as a list. */
  function TrimmedTokens(raw: string, v: Vocabulary): seq<string> { TrimBack(TrimFront(TextTokens(Tokens(raw), v))) }

  lemma FreeTextTokens(raw: string, v: Vocabulary)
    ensures Parse(raw, v).text == Join(TrimmedTokens(raw, v)) && Tokens(Parse(raw, v).text) == TrimmedTokens(raw, v)
  {
    hide Tokens, TextTokens, Join, TrimFront, TrimBack, TrimLeft, TrimRight, Tokenised, Filters;
    var ts := TextTokens(Tokens(raw), v);
    TokensAreTokens(raw);
    TextTokensAre(Tokens(raw), v);
    TrimLeftTokens(ts);
    TrimRightTokens(TrimFront(ts));
    FrontIsTokenised(ts);
    BackIsTokenised(TrimFront(ts));
    JoinedTokensSplit(TrimmedTokens(raw, v));
  }

  /** Trimming touches at most the two ends of what it leaves. */
  lemma {:induction false} FrontKeepsInner(ts: seq<string>)
    ensures |TrimFront(ts)| <= |ts|
    ensures forall i | 0 < i < |TrimFront(ts)| :: TrimFront(ts)[i] in ts
  {
    hide TrimLeft;
    if ts != [] {
      FrontKeepsInner(ts[1..]);
      assert forall i | 0 < i < |ts| :: ([TrimLeft(ts[0])] + ts[1..])[i] == ts[i];
    }
  }

  lemma {:induction false} BackKeepsInner(ts: seq<string>)
    ensures |TrimBack(ts)| <= |ts|
    ensures forall i | 0 <= i < |TrimBack(ts)| - 1 :: TrimBack(ts)[i] == ts[i]
    decreases |ts|
  {
    hide TrimRight;
    if ts != [] { BackKeepsInner(ts[..|ts| - 1]); }
  }

  predicate EndsAreText(us: seq<string>, v: Vocabulary) {
    us == [] || (Classify(us[0], v).Text? && Classify(us[|us| - 1], v).Text?)
  }

  lemma InnerIsText(raw: string, v: Vocabulary, i: nat)
    requires 0 < i < |TrimmedTokens(raw, v)| - 1
    ensures Classify(TrimmedTokens(raw, v)[i], v).Text?
  {
    hide Tokens, TextTokens, TrimFront, TrimBack, Classify;
    var ts := TextTokens(Tokens(raw), v);
    TokensAreTokens(raw);
    TextTokensAre(Tokens(raw), v);
    FrontKeepsInner(ts);
    BackKeepsInner(TrimFront(ts));
  }

  lemma {:induction false} TextOnlyIff(ts: seq<string>, v: Vocabulary)
    ensures Filters(ts, v) == [] <==> forall i | 0 <= i < |ts| :: Classify(ts[i], v).Text?
  {
    hide Classify;
    if ts != [] {
      var n := |ts| - 1;
      TextOnlyIff(ts[..n], v);
      assert forall i | 0 <= i < n :: ts[..n][i] == ts[i];
    }
  }

  lemma {:induction false} TrimLeftIsPart(t: string)
    ensures TrimLeft(t) == "" || (!IsUnicodeSpace(TrimLeft(t)[0]) && TrimLeft(TrimLeft(t)) == TrimLeft(t))
  {
    hide IsUnicodeSpace;
    if t != "" && IsUnicodeSpace(t[0]) { TrimLeftIsPart(t[1..]); }
  }

  lemma {:induction false} TrimRightIsFront(t: string)
    ensures TrimRight(t) <= t
    decreases |t|
  {
    hide IsUnicodeSpace;
    if t != "" && IsUnicodeSpace(t[|t| - 1]) { TrimRightIsFront(t[..|t| - 1]); }
  }

  lemma TrimSpaceTwice(s: string)
    ensures TrimSpace(TrimSpace(s)) == TrimSpace(s)
  {
    hide IsUnicodeSpace;
    var l := TrimLeft(s);
    TrimLeftIsPart(s);
    TrimRightIsFront(l);
    TrimRightIsPart(l);
    assert TrimLeft(TrimRight(l)) == TrimRight(l);
  }

  /** Parsing the free text of a query again finds no filter and leaves the text as it is, exactly when
      the first and the last of its trimmed text tokens are still text. */
  lemma StableIff(raw: string, v: Vocabulary)
    ensures Parse(Parse(raw, v).text, v) == ParsedQuery(Parse(raw, v).text, []) <==> EndsAreText(TrimmedTokens(raw, v), v)
  {
    hide Tokens, TextTokens, Filters, TrimmedTokens, TrimSpace, Classify, Join;
    var text, us := Parse(raw, v).text, TrimmedTokens(raw, v);
    FreeTextTokens(raw, v);
    TextOnlyIff(us, v);
    forall i | 0 < i < |us| - 1 ensures Classify(us[i], v).Text? { InnerIsText(raw, v, i); }
    if EndsAreText(us, v) {
      forall i | 0 <= i < |us| ensures Classify(us[i], v).Text? { assert i == 0 || i == |us| - 1 || 0 < i < |us| - 1; }
      AllTextStays(us, v);
      TrimSpaceTwice(Join(TextTokens(Tokens(raw), v)));
    }
  }

  lemma TrimRightPlain(t: string)
    requires Closed(t) && PlainSpaces(t)
    ensures TrimRight(t) == t
  {
    ClosedEnds(t);
    assert t[|t| - 1] in t;
  }

  lemma TrimmedLast(t: string, v: Vocabulary)
    requires v.Valid() && (Closed(t) || Open(t)) && Classify(t, v).Text? && PlainSpaces(t)
    ensures Classify(TrimRight(t), v).Text? && TrimRight(t) != "" && PlainSpaces(TrimRight(t))
    ensures if Closed(t) then TrimRight(t) == t else Open(TrimRight(t))
    ensures TrimRight(TrimRight(t)) == TrimRight(t)
  {
    hide Classify;
    if Closed(t) { TrimRightPlain(t); } else { TrimmedOpenText(t, v); }
    TrimRightIsPart(t);
  }

  lemma {:induction false} TrimRightIsPart(t: string)
    ensures forall c | c in TrimRight(t) :: c in t
    ensures TrimRight(TrimRight(t)) == TrimRight(t)
  {
    hide IsUnicodeSpace;
    if t != "" && IsUnicodeSpace(t[|t| - 1]) { TrimRightIsPart(t[..|t| - 1]); }
  }

  lemma PlainFrontStays(ts: seq<string>)
    requires Tokenised(ts) && forall t | t in ts :: PlainSpaces(t)
    ensures TrimFront(ts) == ts
  {
    if ts != [] {
      assert ts[0] in ts && ts[0][0] in ts[0];
      assert ts == [ts[0]] + ts[1..];
    }
  }

  /** It is for queries whose only white space is blanks, tabs and line ends. */
  lemma ParseIsStable(raw: string, v: Vocabulary)
    requires v.Valid() && PlainSpaces(raw)
    ensures Parse(Parse(raw, v).text, v) == ParsedQuery(Parse(raw, v).text, [])
  {
    hide Classify, IsUnicodeSpace, ScanToken, TrimRight, Tokens, TextTokens, TrimFront, Parse, PlainSpaces;
    var ts := TextTokens(Tokens(raw), v);
    TokensAreTokens(raw);
    TextTokensAre(Tokens(raw), v);
    TokensArePlain(raw);
    PlainFrontStays(ts);
    StableIff(raw, v);
    if ts != [] {
      assert ts[0] in ts && ts[|ts| - 1] in ts;
      TrimmedLast(ts[|ts| - 1], v);
    }
  }

  lemma TokensArePlain(raw: string)
    requires PlainSpaces(raw)
    ensures forall t | t in Tokens(raw) :: PlainSpaces(t)
  {
    hide IsUnicodeSpace;
    TokensWithin(raw);
  }

  /** Every token is text or exactly one filter. */
  lemma {:induction false} TokensAreSorted(ts: seq<string>, v: Vocabulary)
    ensures |TextTokens(ts, v)| + |Filters(ts, v)| == |ts|
    ensures forall p | p in Filters(ts, v) :: !p.Text?
  {
    if ts != [] { TokensAreSorted(ts[..|ts| - 1], v); }
  }

  lemma {:induction false} PlainToken(s: string)
    requires s != "" && forall c | c in s :: !IsSpace(c) && c != '"'
    ensures ScanToken(s) == Scan(|s|, false) && Tokens(s) == [s]
  {
    assert s[0] in s && forall c | c in s[1..] :: c in s;
    if |s| > 1 { PlainToken(s[1..]); }
    assert s[..|s|] == s && s[|s|..] == "";
  }

  lemma {:induction false} IndexOfAt(s: string, c: char, i: nat)
    requires i < |s| && s[i] == c && c !in s[..i]
    ensures IndexOf(s, c) == Some(i)
  {
    if i > 0 {
      assert s[..i][0] == s[0];
      assert s[1..][..i - 1] == s[..i][1..];
      IndexOfAt(s[1..], c, i - 1);
    }
  }

  lemma OneTokenText(s: string, v: Vocabulary)
    requires s != "" && forall c | c in s :: !IsSpace(c) && c != '"'
    ensures Parse(s, v) == if Classify(s, v).Text? then ParsedQuery(TrimSpace(s), []) else ParsedQuery("", [Classify(s, v)])
  {
    hide Classify, Tokens, ScanToken;
    PlainToken(s);
    assert [s][..0] == [];
    assert TextTokens([], v) == [] && Filters([], v) == [];
    assert TextTokens([s], v) == if Classify(s, v).Text? then [s] else [];
    assert TrimSpace("") == "";
  }

  /** No separator, quote or colon. */
  predicate Word(s: string) { s != "" && forall c | c in s :: !IsSpace(c) && c != '"' && c != ':' && !IsUnicodeSpace(c) }

  /** A word, a colon and a word, possibly behind one more character, make one token. */
  lemma PairParses(front: string, key: string, value: string, v: Vocabulary)
    requires Word(key) && Word(value) && forall c | c in front :: !IsSpace(c) && c != '"' && c != ':'
    ensures var s := front + key + ":" + value;
            var part := Filter(v.lower(front + key), value, v);
            Parse(s, v) == if part.Text? then ParsedQuery(TrimSpace(s), []) else ParsedQuery("", [part])
  {
    hide *;
    PairIsPlain(front, key, value);
    var s := front + key + ":" + value;
    OneTokenText(s, v);
    ClassifyAt(s, |front + key|, v);
  }

  lemma PairIsPlain(front: string, key: string, value: string)
    requires Word(key) && Word(value) && forall c | c in front :: !IsSpace(c) && c != '"' && c != ':'
    ensures var s := front + key + ":" + value;
            var k := |front + key|;
            && 0 < k < |s| - 1 && s[..k] == front + key && s[k + 1..] == value && IndexOf(s, ':') == Some(k)
            && (forall c | c in s :: !IsSpace(c) && c != '"') && Unquote(s[k + 1..]) == value
  {
    hide IsUnicodeSpace, IndexOf;
    var k := front + key;
    var s := k + ":" + value;
    forall c | c in s ensures !IsSpace(c) && c != '"' { assert c in front || c in key || c == ':' || c in value; }
    assert s[..|k|] == k && s[|k| + 1..] == value;
    assert ':' !in k;
    IndexOfAt(s, ':', |k|);
    assert value[0] in value;
  }

  /** Any character that is trimmed but does not separate tokens can uncover a filter: in front of
      `kind:` it makes the token text, and the trimmed text is a filter. */
  lemma TrimmingUncoversAFilter(c: char, kind: string, v: Vocabulary)
    requires v.Valid() && IsUnicodeSpace(c) && !IsSpace(c) && c != '"' && c != ':'
    requires Word(kind) && kind in v.kinds && v.lower("kind") == "kind"
    requires v.lower([c] + "kind") !in {"kind", "lang", "language", "path", "name"}
    ensures Parse([c] + "kind" + ":" + kind, v) == ParsedQuery("kind:" + kind, [])
    ensures Parse("kind:" + kind, v) == ParsedQuery("", [Kind(kind)])
  {
    hide Parse, TrimSpace, IsUnicodeSpace;
    var key := "kind";
    KindIsAWord();
    PairParses([c], key, kind, v);
    PairParses("", key, kind, v);
    var t := key + ":" + kind;
    assert [c] + key + ":" + kind == [c] + t && "" + key == key && t == "kind:" + kind;
    assert Filter("kind", kind, v) == Kind(kind);
    assert key[0] in key && t[0] == key[0] && kind[|kind| - 1] in kind && t[|t| - 1] == kind[|kind| - 1];
    TrimsFront([c] + t);
    assert ([c] + t)[1..] == t;
  }

  lemma KindIsAWord()
    ensures Word("kind")
  {
    forall c | c in "kind" ensures !IsSpace(c) && c != '"' && c != ':' && !IsUnicodeSpace(c) {
      assert c == 'k' || c == 'i' || c == 'n' || c == 'd';
    }
  }

  lemma TrimsFront(s: string)
    requires |s| > 1 && IsUnicodeSpace(s[0]) && !IsUnicodeSpace(s[1]) && !IsUnicodeSpace(s[|s| - 1])
    ensures TrimSpace(s) == s[1..]
  {
    hide IsUnicodeSpace;
    assert TrimLeft(s[1..]) == s[1..];
  }

  // ---------------------------------------------------------------- the code

  lemma ScanStep(s: string, i: nat)
    requires i < |s| && !IsSpace(s[i])
    ensures s[i] != '"' ==> ScanToken(s[i..]).length == 1 + ScanToken(s[i + 1..]).length
    ensures s[i] == '"' ==>
              match IndexOf(s[i + 1..], '"')
              case None => ScanToken(s[i..]).length == |s| - i
              case Some(e) => i + e + 2 <= |s| && ScanToken(s[i..]).length == e + 2 + ScanToken(s[i + e + 2..]).length
  {
    var t := s[i..];
    assert t[1..] == s[i + 1..];
    IndexOfIs(t[1..], '"');
    if IndexOf(t[1..], '"').Some? {
      var e := IndexOf(t[1..], '"').value;
      assert t[e + 2..] == s[i + e + 2..];
    }
  }

  /** Where the token that starts at `start` ends. */
  method EndOfToken(raw: string, start: nat) returns (i: nat)
    requires start < |raw|
    ensures start <= i <= |raw| && i == start + ScanToken(raw[start..]).length
  {
    hide ScanToken, IndexOf;
    i := start;
    while i < |raw| && !IsSpace(raw[i])
      invariant start <= i <= |raw|
      invariant start + ScanToken(raw[start..]).length == i + ScanToken(raw[i..]).length
    {
      ScanStep(raw, i);
      if raw[i] == '"' {
        var end := IndexOf(raw[i + 1..], '"');
        if end.None? { return |raw|; }
        i := i + 1 + end.value + 1;
      } else {
        i := i + 1;
      }
    }
    NothingToScan(raw[i..]);
  }

  lemma NothingToScan(s: string)
    requires s == "" || IsSpace(s[0])
    ensures ScanToken(s).length == 0
  {
  }

  lemma TokensStep(s: string, i: nat)
    requires i < |s|
    ensures IsSpace(s[i]) ==> Tokens(s[i..]) == Tokens(s[i + 1..])
    ensures !IsSpace(s[i]) ==>
              var n := ScanToken(s[i..]).length;
              0 < n && i + n <= |s| && Tokens(s[i..]) == [s[i..i + n]] + Tokens(s[i + n..])
  {
    var t := s[i..];
    assert t[1..] == s[i + 1..];
    if !IsSpace(s[i]) {
      TokenIsNotEmpty(t);
      var n := ScanToken(t).length;
      assert t[..n] == s[i..i + n] && t[n..] == s[i + n..];
    }
  }

  method Tokenise(raw: string) returns (tokens: seq<string>)
    ensures tokens == Tokens(raw)
  {
    hide Tokens, ScanToken;
    assert raw[0..] == raw && Tokens("") == [] by { NoTokens(); }
    tokens := [];
    var i := 0;
    while i < |raw|
      invariant 0 <= i <= |raw| && tokens + Tokens(raw[i..]) == Tokens(raw)
    {
      TokensStep(raw, i);
      if IsSpace(raw[i]) {
        i := i + 1;
      } else {
        var start := i;
        i := EndOfToken(raw, start);
        tokens := tokens + [raw[start..i]];
      }
    }
    assert raw[i..] == "";
  }

  lemma NoTokens()
    ensures Tokens("") == []
  {
  }

  method ParseQuery(raw: string, v: Vocabulary) returns (out: ParsedQuery)
    ensures out == Parse(raw, v)
  {
    hide Classify;
    var tokens := Tokenise(raw);
    var textParts: seq<string> := [];
    var filters: seq<Part> := [];
    for k := 0 to |tokens|
      invariant textParts == TextTokens(tokens[..k], v) && filters == Filters(tokens[..k], v)
    {
      assert tokens[..k + 1][..k] == tokens[..k];
      var part := ClassifyToken(tokens[k], v);
      if part.Text? { textParts := textParts + [tokens[k]]; } else { filters := filters + [part]; }
    }
    assert tokens[..|tokens|] == tokens;
    out := ParsedQuery(TrimSpace(Join(textParts)), filters);
  }

  /** The branches of the loop over tokens. */
  method ClassifyToken(tok: string, v: Vocabulary) returns (part: Part)
    ensures part == Classify(tok, v)
  {
    IndexOfIs(tok, ':');
    var colon := IndexOf(tok, ':');
    if colon.None? || colon.value == 0 || colon.value == |tok| - 1 { return Text; }
    var key := v.lower(tok[..colon.value]);
    var valueRaw := Unquote(tok[colon.value + 1..]);
    if valueRaw == "" { return Text; }
    match key {
      case "kind" => part := if valueRaw in v.kinds then Kind(valueRaw) else Text;
      case "lang" => part := if v.lower(valueRaw) in v.languages then Language(v.lower(valueRaw)) else Text;
      case "language" => part := if v.lower(valueRaw) in v.languages then Language(v.lower(valueRaw)) else Text;
      case "path" => part := Path(valueRaw);
      case "name" => part := Name(valueRaw);
      case _ => part := Text;
    }
  }
}
