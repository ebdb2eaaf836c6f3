/** What a search query means, character by character (query/parser.go): where tokens end, what quotes
    protect, which pairs are filters, and what is trimmed. */
module QueryMeaning {
  import opened Collections
  import opened QueryParser

  /** Characters without a meaning of their own: no separator and no quote. */
  ghost predicate Ordinary(s: string) { forall c | c in s :: c !in {' ', '\t', '\n', '\r', '"'} }

  // ---------------------------------------------------------------- tokens

  lemma SeparatorsAre(c: char)
    ensures IsSpace(c) <==> c in {' ', '\t', '\n', '\r'}
  {
  }

  lemma {:induction false} OrdinaryScan(s: string)
    requires Ordinary(s)
    ensures ScanToken(s) == Scan(|s|, false)
  {
    if s != "" {
      assert s[0] in s && forall c | c in s[1..] :: c in s;
      OrdinaryScan(s[1..]);
    }
  }

  lemma {:induction false} FirstQuote(s: string, r: string)
    requires '"' !in s
    ensures IndexOf(s + "\"" + r, '"') == Some(|s|)
  {
    var t := s + "\"" + r;
    if s == "" {
      assert t[0] == '"';
    } else {
      assert t[0] == s[0] && s[0] in s && t[1..] == s[1..] + "\"" + r && forall c | c in s[1..] :: c in s;
      FirstQuote(s[1..], r);
    }
  }

  /** Between two quotes everything is protected, separators included. */
  lemma QuotedScan(s: string)
    requires '"' !in s
    ensures ScanToken("\"" + s + "\"") == Scan(|s| + 2, false)
  {
    var t := "\"" + s + "\"";
    assert t[1..] == s + "\"" + "";
    FirstQuote(s, "");
    assert t[|s| + 2..] == "";
  }

  /** A quote that is not closed protects the rest. */
  lemma OpenScan(s: string)
    requires '"' !in s
    ensures ScanToken("\"" + s) == Scan(|s| + 1, true)
  {
    var t := "\"" + s;
    assert t[1..] == s;
    IndexOfIs(s, '"');
  }

  /** Closed pieces in a row are one closed piece. */
  lemma {:induction false} PiecesScan(a: string, b: string)
    requires ScanToken(a) == Scan(|a|, false) && !Starts(b)
    ensures ScanToken(a + b) == Scan(|a| + ScanToken(b).length, ScanToken(b).open)
    decreases |a|
  {
    if a == "" {
      assert a + b == b;
    } else {
      assert (a + b)[0] == a[0] && (a + b)[1..] == a[1..] + b;
      if a[0] == '"' {
        IndexOfIs(a[1..], '"');
        var i := IndexOf(a[1..], '"').value;
        FirstIndexStays(a[1..], b, '"');
        assert (a + b)[i + 2..] == a[i + 2..] + b;
        PiecesScan(a[i + 2..], b);
      } else {
        PiecesScan(a[1..], b);
      }
    }
  }

  /** Tokens are made of ordinary characters and quoted pieces. */
  lemma Pieces(a: string, s: string)
    requires Closed(a) || a == ""
    ensures Ordinary(s) && s != "" ==> Closed(a + s)
    ensures '"' !in s ==> Closed(a + ("\"" + s + "\"")) && Open(a + ("\"" + s))
  {
    hide ScanToken;
    ScanCases("");
    if Ordinary(s) && s != "" {
      OrdinaryScan(s);
      assert s[0] in s;
      PiecesScan(a, s);
    }
    if '"' !in s {
      QuotedScan(s);
      OpenScan(s);
      PiecesScan(a, "\"" + s + "\"");
      PiecesScan(a, "\"" + s);
    }
  }

  /** A token ends at the first separator behind it, or with the query. */
  lemma TokensAre(t: string, c: char, rest: string)
    requires c in {' ', '\t', '\n', '\r'}
    ensures Tokens("") == [] && Tokens([c] + rest) == Tokens(rest)
    ensures Closed(t) ==> Tokens(t + ([c] + rest)) == [t] + Tokens(rest) && Tokens(t) == [t]
    ensures Open(t) ==> Tokens(t) == [t]
  {
    SeparatorsAre(c);
    assert ([c] + rest)[1..] == rest;
    if Closed(t) {
      var s := t + ([c] + rest);
      ClosedBefore(t, [c] + rest);
      ScanCases(t);
      assert s[0] == t[0] && s[..|t|] == t && s[|t|..] == [c] + rest;
      assert t[..|t|] == t && t[|t|..] == "";
    }
    if Open(t) {
      ScanCases(t);
      assert t[..|t|] == t && t[|t|..] == "";
    }
  }

  // ---------------------------------------------------------------- filters

  /** What `key:value` says, by the lower-case key. */
  ghost function Meaning(key: string, value: string, v: Vocabulary): Part {
    if value == "" then Text
    else if key == "kind" && value in v.kinds then Kind(value)
    else if key in {"lang", "language"} && v.lower(value) in v.languages then Language(v.lower(value))
    else if key == "path" then Path(value)
    else if key == "name" then Name(value)
    else Text
  }

  lemma FilterIs(key: string, value: string, v: Vocabulary)
    ensures Filter(key, value, v) == Meaning(key, value, v)
  {
    assert "kind" != "path" && "kind" != "name" && "path" != "name" by { assert "kind"[0] == 'k' && "path"[0] == 'p' && "name"[0] == 'n'; }
    assert "lang" !in {"kind", "path", "name"} && "language" !in {"kind", "path", "name"} by { assert "lang"[0] == 'l' && "language"[0] == 'l' && "kind"[0] == 'k' && "path"[0] == 'p' && "name"[0] == 'n'; }
  }

  /** A token without a colon, or with its first one at an end, is text. */
  lemma NoPair(t: string, v: Vocabulary)
    requires ':' !in t || t[0] == ':' || (t[|t| - 1] == ':' && ':' !in t[..|t| - 1])
    ensures Classify(t, v) == Text
  {
    IndexOfIs(t, ':');
    if ':' in t && t[0] != ':' { IndexOfAt(t, ':', |t| - 1); }
  }

  /** A pair is split at its first colon, and one pair of quotes around the value is dropped. */
  lemma PairMeans(key: string, value: string, v: Vocabulary)
    requires key != "" && ':' !in key && value != ""
    ensures Classify(key + (":" + value), v) ==
            Meaning(v.lower(key),
                    if |value| >= 2 && value[0] == '"' && value[|value| - 1] == '"' then value[1..|value| - 1] else value, v)
  {
    var t := key + (":" + value);
    assert t[|key|] == ':' && t[..|key|] == key && t[|key| + 1..] == value;
    IndexOfAt(t, ':', |key|);
    ClassifyAt(t, |key|, v);
    FilterIs(v.lower(key), Unquote(value), v);
  }

  // ---------------------------------------------------------------- text

  /** The text is the text tokens with single blanks between them, trimmed. */
  lemma ParsedIs(raw: string, v: Vocabulary)
    ensures Parse(raw, v).text == TrimSpace(Join(TextTokens(Tokens(raw), v)))
    ensures Join([]) == "" && (forall t :: Join([t]) == t)
    ensures forall t, ts: seq<string> | ts != [] :: Join([t] + ts) == t + " " + Join(ts)
  {
    forall t, ts: seq<string> | ts != [] ensures Join([t] + ts) == t + " " + Join(ts) {
      JoinFirst(t, ts);
      assert t + (" " + Join(ts)) == t + " " + Join(ts);
    }
  }

  /** The filters are what the other tokens say. */
  lemma {:induction false} FiltersAre(ts: seq<string>, v: Vocabulary, part: Part)
    ensures part in Filters(ts, v) <==> part != Text && exists t :: t in ts && Classify(t, v) == part
  {
    hide Classify;
    if ts != [] {
      FiltersAre(ts[..|ts| - 1], v, part);
      assert ts == ts[..|ts| - 1] + [ts[|ts| - 1]];
    }
  }

  /** Text tokens keep their order. */
  lemma KeptTokens(ts: seq<string>, v: Vocabulary, i: nat, j: nat)
    ensures i < j < |TextTokens(ts, v)| ==> exists p, q :: 0 <= p < q < |ts| && ts[p] == TextTokens(ts, v)[i] && ts[q] == TextTokens(ts, v)[j]
    ensures forall t :: t in TextTokens(ts, v) <==> t in ts && Classify(t, v) == Text
  {
    hide Classify;
    SelectMembers(ts, (t: string) => Classify(t, v).Text?);
    if i < j < |TextTokens(ts, v)| { SelectKeepsOrder(ts, (t: string) => Classify(t, v).Text?, i, j); }
  }

  /** The white space of Unicode, by code point. */
  ghost predicate White(c: char) {
    var n := c as int;
    9 <= n <= 13 || n in {32, 133, 160, 5760, 8232, 8233, 8239, 8287, 12288} || 8192 <= n <= 8202
  }

  /** Trimming takes white space off both ends and nothing else. */
  lemma TrimIs(s: string) returns (front: string, back: string)
    ensures s == front + TrimSpace(s) + back
    ensures (forall c | c in front + back :: White(c))
    ensures TrimSpace(s) != "" ==> !White(TrimSpace(s)[0]) && !White(TrimSpace(s)[|TrimSpace(s)| - 1])
  {
    front := TrimLeftIs(s);
    var l := TrimLeft(s);
    back := TrimRightIs(l);
    TrimRightIsFront(l);
  }

  lemma WhiteIs(c: char)
    ensures IsUnicodeSpace(c) <==> White(c)
  {
  }

  lemma {:induction false} TrimLeftIs(s: string) returns (front: string)
    ensures s == front + TrimLeft(s) && (forall c | c in front :: White(c))
    ensures TrimLeft(s) != "" ==> !White(TrimLeft(s)[0])
  {
    hide IsUnicodeSpace, White;
    front := "";
    if s != "" {
      WhiteIs(s[0]);
      if IsUnicodeSpace(s[0]) {
        var more := TrimLeftIs(s[1..]);
        front := [s[0]] + more;
        assert s == [s[0]] + s[1..];
      }
    }
  }

  lemma {:induction false} TrimRightIs(s: string) returns (back: string)
    ensures s == TrimRight(s) + back && (forall c | c in back :: White(c))
    ensures TrimRight(s) != "" ==> !White(TrimRight(s)[|TrimRight(s)| - 1])
    decreases |s|
  {
    hide IsUnicodeSpace, White;
    back := "";
    if s != "" {
      WhiteIs(s[|s| - 1]);
      if IsUnicodeSpace(s[|s| - 1]) {
        var more := TrimRightIs(s[..|s| - 1]);
        back := more + [s[|s| - 1]];
        assert s == s[..|s| - 1] + [s[|s| - 1]];
      }
    }
  }
}
