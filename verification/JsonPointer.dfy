/**
  JSON Pointer strings (sections 3 and 4 of RFC 6901): escaping, encoding, decoding
  and the normalisation of user-written paths. The regular expressions that cut up
  a loose path are a parameter; what is kept of them is what trimming and filtering ensure.
 */
module JsonPointer {
  import opened Wrappers

  // ----- escaping -----

  /** `replaceAll` of one character. */
  function ReplaceChar(s: string, c: char, with: string): string
    decreases |s|
  {
    if s == "" then "" else (if s[0] == c then with else [s[0]]) + ReplaceChar(s[1..], c, with)
  }

  /** `replaceAll` of two characters, left to right without overlap. */
  function ReplacePair(s: string, c: char, d: char, with: char): string
    decreases |s|
  {
    if s == "" then ""
    else if |s| >= 2 && s[0] == c && s[1] == d then [with] + ReplacePair(s[2..], c, d, with)
    else [s[0]] + ReplacePair(s[1..], c, d, with)
  }

  function Escape(token: string): string {
    ReplaceChar(ReplaceChar(token, '~', "~0"), '/', "~1")
  }

  function Unescape(token: string): string {
    ReplacePair(ReplacePair(token, '~', '1', '/'), '~', '0', '~')
  }

  lemma {:induction false} ReplaceConcat(a: string, b: string, c: char, with: string)
    ensures ReplaceChar(a + b, c, with) == ReplaceChar(a, c, with) + ReplaceChar(b, c, with)
    decreases |a|
  {
    if a == "" {
      assert a + b == b;
    } else {
      assert (a + b)[0] == a[0] && (a + b)[1..] == a[1..] + b;
      ReplaceConcat(a[1..], b, c, with);
    }
  }

  lemma OneReplaced(x: char, c: char, with: string)
    ensures ReplaceChar([x], c, with) == if x == c then with else [x]
  {
    assert [x][1..] == "";
    assert with + "" == with && [x] + "" == [x];
  }

  lemma EscapeConcat(a: string, b: string)
    ensures Escape(a + b) == Escape(a) + Escape(b)
  {
    hide ReplaceChar;
    ReplaceConcat(a, b, '~', "~0");
    ReplaceConcat(ReplaceChar(a, '~', "~0"), ReplaceChar(b, '~', "~0"), '/', "~1");
  }

  lemma EscapeOne(c: char)
    ensures Escape([c]) == if c == '~' then "~0" else if c == '/' then "~1" else [c]
  {
    hide ReplaceChar;
    OneReplaced(c, '~', "~0");
    OneReplaced(c, '/', "~1");
    if c == '~' {
      assert "~0" == ['~'] + ['0'];
      ReplaceConcat(['~'], ['0'], '/', "~1");
      OneReplaced('0', '/', "~1");
    }
  }

  /** Section 3 of RFC 6901: a tilde is written "~0", a slash "~1", and every other character as it is. */
  lemma EscapeSays(a: string, c: char, b: string)
    ensures Escape("") == ""
    ensures Escape(a + [c] + b) == Escape(a) + (if c == '~' then "~0" else if c == '/' then "~1" else [c]) + Escape(b)
  {
    EscapeOne(c);
    EscapeConcat(a + [c], b);
    EscapeConcat(a, [c]);
  }

  /** No tilde is followed by a 1. */
  predicate NoTildeOne(s: string) {
    forall i :: 0 <= i < |s| - 1 && s[i] == '~' ==> s[i + 1] != '1'
  }

  lemma {:induction false} TildesEscaped(t: string)
    ensures NoTildeOne(ReplaceChar(t, '~', "~0"))
    ensures ReplacePair(ReplaceChar(t, '~', "~0"), '~', '0', '~') == t
    decreases |t|
  {
    if t != "" {
      var rest := ReplaceChar(t[1..], '~', "~0");
      TildesEscaped(t[1..]);
      if t[0] == '~' {
        assert ("~0" + rest)[2..] == rest;
        assert NoTildeOne("~0" + rest);
      } else {
        assert ([t[0]] + rest)[1..] == rest;
        assert NoTildeOne([t[0]] + rest);
      }
    }
  }

  lemma {:induction false} SlashesEscaped(s: string)
    requires NoTildeOne(s)
    ensures ReplacePair(ReplaceChar(s, '/', "~1"), '~', '1', '/') == s
    decreases |s|
  {
    if s != "" {
      var rest := ReplaceChar(s[1..], '/', "~1");
      assert NoTildeOne(s[1..]);
      SlashesEscaped(s[1..]);
      if s[0] == '/' {
        assert ("~1" + rest)[2..] == rest;
      } else {
        assert ([s[0]] + rest)[1..] == rest;
        assert s[0] == '~' && rest != "" ==> rest[0] != '1';
      }
    }
  }

  lemma UnescapeEscape(t: string)
    ensures Unescape(Escape(t)) == t
  {
    TildesEscaped(t);
    SlashesEscaped(ReplaceChar(t, '~', "~0"));
  }

  lemma {:induction false} ReplaceCharGone(s: string, c: char, with: string)
    requires c !in with
    ensures c !in ReplaceChar(s, c, with)
    decreases |s|
  {
    if s != "" {
      ReplaceCharGone(s[1..], c, with);
    }
  }

  // ----- joining and splitting -----

  function Join(parts: seq<string>): string
    decreases |parts|
  {
    if |parts| == 0 then "" else if |parts| == 1 then parts[0] else parts[0] + "/" + Join(parts[1..])
  }

  /** `split("/")`. */
  function Split(s: string): (r: seq<string>)
    ensures r != []
    decreases |s|
  {
    if s == "" then [""]
    else
      var rest := Split(s[1..]);
      if s[0] == '/' then [""] + rest else [[s[0]] + rest[0]] + rest[1..]
  }

  predicate SlashFree(parts: seq<string>) {
    forall i :: 0 <= i < |parts| ==> '/' !in parts[i]
  }

  lemma {:induction false} SplitPrefix(a: string, s: string)
    requires '/' !in a
    ensures Split(a + s) == [a + Split(s)[0]] + Split(s)[1..]
    decreases |a|
  {
    if a == "" {
      assert a + s == s && a + Split(s)[0] == Split(s)[0];
    } else {
      var first, more := Split(s)[0], Split(s)[1..];
      assert (a + s)[0] == a[0] && (a + s)[1..] == a[1..] + s;
      SplitPrefix(a[1..], s);
      assert ([a[1..] + first] + more)[1..] == more;
      assert [a[0]] + (a[1..] + first) == a + first;
    }
  }

  lemma {:induction false} SplitJoin(parts: seq<string>)
    requires parts != [] && SlashFree(parts)
    ensures Split(Join(parts)) == parts
    decreases |parts|
  {
    if |parts| == 1 {
      SplitPrefix(parts[0], "");
      assert parts[0] + "" == parts[0];
    } else {
      var rest := Join(parts[1..]);
      SplitJoin(parts[1..]);
      assert ("/" + rest)[1..] == rest;
      assert parts[0] + "/" + rest == parts[0] + ("/" + rest);
      SplitPrefix(parts[0], "/" + rest);
      assert Split("/" + rest) == [""] + parts[1..];
      assert ([""] + parts[1..])[1..] == parts[1..] && parts[0] + "" == parts[0];
      assert [parts[0]] + parts[1..] == parts;
    }
  }

  lemma {:induction false} JoinSplit(s: string)
    ensures Join(Split(s)) == s && SlashFree(Split(s))
    decreases |s|
  {
    if s != "" {
      var rest := Split(s[1..]);
      JoinSplit(s[1..]);
      if s[0] == '/' {
        assert ([""] + rest)[1..] == rest;
        assert "" + "/" + Join(rest) == s;
      } else if |rest| > 1 {
        assert ([[s[0]] + rest[0]] + rest[1..])[1..] == rest[1..];
        assert [s[0]] + rest[0] + "/" + Join(rest[1..]) == [s[0]] + Join(rest);
      }
    }
  }

  // ----- pointers -----

  function EscapeAll(tokens: seq<string>): (r: seq<string>)
    ensures |r| == |tokens| && forall i :: 0 <= i < |r| ==> r[i] == Escape(tokens[i])
  {
    seq(|tokens|, i requires 0 <= i < |tokens| => Escape(tokens[i]))
  }

  function UnescapeAll(tokens: seq<string>): (r: seq<string>)
    ensures |r| == |tokens| && forall i :: 0 <= i < |r| ==> r[i] == Unescape(tokens[i])
  {
    seq(|tokens|, i requires 0 <= i < |tokens| => Unescape(tokens[i]))
  }

  function Encode(tokens: seq<string>): string {
    if tokens == [] then "/" else "/" + Join(EscapeAll(tokens))
  }

  function Decode(pointer: string): seq<string> {
    if pointer == "/" then []
    else if pointer == "" || pointer[0] != '/' then []
    else UnescapeAll(Split(pointer[1..]))
  }

  lemma EscapedSlashFree(tokens: seq<string>)
    ensures SlashFree(EscapeAll(tokens))
  {
    forall i | 0 <= i < |tokens|
      ensures '/' !in EscapeAll(tokens)[i]
    {
      ReplaceCharGone(ReplaceChar(tokens[i], '~', "~0"), '/', "~1");
    }
  }

  lemma UnescapeEscapeAll(tokens: seq<string>)
    ensures UnescapeAll(EscapeAll(tokens)) == tokens
  {
    forall i | 0 <= i < |tokens|
      ensures UnescapeAll(EscapeAll(tokens))[i] == tokens[i]
    {
      UnescapeEscape(tokens[i]);
    }
  }

  lemma {:induction false} EscapeEmpty(t: string)
    ensures Escape(t) == "" <==> t == ""
  {
    if t != "" {
      var inner := ReplaceChar(t, '~', "~0");
      assert inner != "";
    }
  }

  lemma JoinEmpty(parts: seq<string>)
    requires parts != []
    ensures Join(parts) == "" <==> parts == [""]
  {
    if |parts| > 1 {
      assert '/' in Join(parts) by { assert Join(parts)[|parts[0]|] == '/'; }
    }
  }

  /** The round trip fails for the pointer to an empty key of the root, and for nothing else. */
  lemma DecodeEncode(tokens: seq<string>)
    ensures Decode(Encode(tokens)) == tokens <==> tokens != [""]
    ensures tokens == [""] ==> Decode(Encode(tokens)) == []
  {
    if tokens != [] {
      EscapedSlashFree(tokens);
      SplitJoin(EscapeAll(tokens));
      UnescapeEscapeAll(tokens);
      JoinEmpty(EscapeAll(tokens));
      EscapeEmpty(tokens[0]);
      assert ("/" + Join(EscapeAll(tokens)))[1..] == Join(EscapeAll(tokens));
      assert EscapeAll(tokens) == [""] <==> tokens == [""] by {
        assert EscapeAll(tokens)[0] == Escape(tokens[0]);
      }
    }
  }

  /** Only the root and its empty key share a pointer. */
  lemma EncodeInjective(a: seq<string>, b: seq<string>)
    ensures Encode(a) == Encode(b) <==> a == b || (a in {[], [""]} && b in {[], [""]})
  {
    DecodeEncode(a);
    DecodeEncode(b);
    EscapeEmpty("");
    assert Encode([""]) == "/" by {
      assert EscapeAll([""]) == [""];
    }
  }

  // ----- normalisation -----

  /** The characters `trim` removes. */
  predicate IsSpace(c: char) {
    c in {'\t', '\n', '\U{000B}', '\U{000C}', '\r', ' ', '\U{00A0}', '\U{1680}', '\U{2028}', '\U{2029}',
          '\U{202F}', '\U{205F}', '\U{3000}', '\U{FEFF}'} || '\U{2000}' <= c <= '\U{200A}'
  }

  predicate EndsInSpace(s: string) {
    s != "" && IsSpace(s[|s| - 1])
  }

  function TrimStart(s: string): (r: string)
    ensures r != "" ==> !IsSpace(r[0])
    ensures s != "" && !EndsInSpace(s) ==> r != "" && r[|r| - 1] == s[|s| - 1]
    decreases |s|
  {
    if s != "" && IsSpace(s[0]) then TrimStart(s[1..]) else s
  }

  function TrimEnd(s: string): (r: string)
    ensures !EndsInSpace(r) && r <= s
    ensures !EndsInSpace(s) ==> r == s
    decreases |s|
  {
    if EndsInSpace(s) then TrimEnd(s[..|s| - 1]) else s
  }

  function Trim(s: string): (r: string)
    ensures r != "" ==> !IsSpace(r[0]) && !EndsInSpace(r)
    ensures s != "" && !IsSpace(s[0]) && !EndsInSpace(s) ==> r == s
  {
    TrimStart(TrimEnd(s))
  }

  /** Trimmed segments, empty ones dropped. */
  function Tokens(segments: seq<string>): (r: seq<string>)
    ensures forall i :: 0 <= i < |r| ==> r[i] != "" && !EndsInSpace(r[i])
    decreases |segments|
  {
    if segments == [] then []
    else (if Trim(segments[0]) == "" then [] else [Trim(segments[0])]) + Tokens(segments[1..])
  }

  /** `loose` cuts a path that is no pointer into segments. */
  function Normalize(path: Option<string>, loose: string -> seq<string>): string {
    if path.None? || Trim(path.value) == "" then "/"
    else
      var trimmed := Trim(path.value);
      if trimmed == "/" then "/"
      else if trimmed[0] == '/' then Encode(Decode(trimmed))
      else Encode(Tokens(loose(trimmed)))
  }

  lemma {:induction false} ReplaceCharEnd(s: string, c: char, with: string)
    requires s != "" && !EndsInSpace(s) && with != "" && !EndsInSpace(with)
    ensures ReplaceChar(s, c, with) != "" && !EndsInSpace(ReplaceChar(s, c, with))
    decreases |s|
  {
    if |s| > 1 {
      ReplaceCharEnd(s[1..], c, with);
    } else {
      assert ReplaceChar(s[1..], c, with) == "";
    }
  }

  lemma {:induction false} ReplacePairEnd(s: string, c: char, d: char, with: char)
    requires s != "" && !EndsInSpace(s) && !IsSpace(with)
    ensures ReplacePair(s, c, d, with) != "" && !EndsInSpace(ReplacePair(s, c, d, with))
    decreases |s|
  {
    if |s| >= 2 && s[0] == c && s[1] == d {
      if |s| > 2 {
        ReplacePairEnd(s[2..], c, d, with);
      }
    } else if |s| > 1 {
      ReplacePairEnd(s[1..], c, d, with);
    }
  }

  lemma EscapeEnd(t: string)
    requires t != "" && !EndsInSpace(t)
    ensures Escape(t) != "" && !EndsInSpace(Escape(t))
  {
    ReplaceCharEnd(t, '~', "~0");
    ReplaceCharEnd(ReplaceChar(t, '~', "~0"), '/', "~1");
  }

  lemma UnescapeEnd(t: string)
    requires t != "" && !EndsInSpace(t)
    ensures Unescape(t) != "" && !EndsInSpace(Unescape(t))
  {
    ReplacePairEnd(t, '~', '1', '/');
    ReplacePairEnd(ReplacePair(t, '~', '1', '/'), '~', '0', '~');
  }

  /** The text ends as its last part does, or in a slash. */
  lemma {:induction false} JoinEnd(parts: seq<string>)
    requires parts != []
    ensures parts[|parts| - 1] != "" ==> EndsInSpace(Join(parts)) == EndsInSpace(parts[|parts| - 1])
    ensures parts[|parts| - 1] == "" ==> !EndsInSpace(Join(parts))
    decreases |parts|
  {
    if |parts| > 1 {
      JoinEnd(parts[1..]);
      var rest := Join(parts[1..]);
      assert rest != "" ==> Join(parts)[|Join(parts)| - 1] == rest[|rest| - 1];
      assert rest == "" ==> Join(parts)[|Join(parts)| - 1] == '/';
      JoinEmpty(parts[1..]);
      assert parts[1..][|parts| - 2] == parts[|parts| - 1];
    }
  }

  lemma EncodeEnd(tokens: seq<string>)
    requires tokens != [] ==> !EndsInSpace(tokens[|tokens| - 1])
    ensures !EndsInSpace(Encode(tokens)) && Encode(tokens)[0] == '/'
  {
    if tokens != [] {
      var last := tokens[|tokens| - 1];
      if last != "" {
        EscapeEnd(last);
      } else {
        EscapeEmpty(last);
      }
      JoinEnd(EscapeAll(tokens));
      var joined := Join(EscapeAll(tokens));
      assert joined != "" ==> Encode(tokens)[|Encode(tokens)| - 1] == joined[|joined| - 1];
    }
  }

  lemma UnescapeNothing()
    ensures Unescape("") == ""
  {
  }

  lemma DecodeEnd(pointer: string)
    requires pointer != "" && !EndsInSpace(pointer)
    ensures Decode(pointer) != [] ==> !EndsInSpace(Decode(pointer)[|Decode(pointer)| - 1])
    ensures Decode(pointer) != [""]
  {
    hide IsSpace, Split, Join, Unescape;
    if pointer != "/" && pointer[0] == '/' {
      var s := pointer[1..];
      var parts := Split(s);
      JoinSplit(s);
      JoinEnd(parts);
      assert s[|s| - 1] == pointer[|pointer| - 1];
      var last := parts[|parts| - 1];
      if last != "" {
        UnescapeEnd(last);
      } else {
        UnescapeNothing();
        assert |parts| > 1 by { JoinEmpty(parts); }
      }
    }
  }

  /** Where normalising a pointer built from tokens keeps the pointer. */
  lemma NormalizeEncoded(tokens: seq<string>, loose: string -> seq<string>)
    requires tokens != [""] && (tokens != [] ==> !EndsInSpace(tokens[|tokens| - 1]))
    ensures Normalize(Some(Encode(tokens)), loose) == Encode(tokens)
  {
    EncodeEnd(tokens);
    assert Trim(Encode(tokens)) == Encode(tokens);
    DecodeEncode(tokens);
  }

  /** Normalising twice is normalising once, for every path. */
  lemma NormalizeIdempotent(path: Option<string>, loose: string -> seq<string>)
    ensures Normalize(Some(Normalize(path, loose)), loose) == Normalize(path, loose)
  {
    hide Trim, IsSpace, EndsInSpace, Decode, Join, EscapeAll, Tokens;
    NormalizeEncoded([], loose);
    if path.Some? && Trim(path.value) != "" {
      var trimmed := Trim(path.value);
      if trimmed != "/" && trimmed[0] == '/' {
        DecodeEnd(trimmed);
        NormalizeEncoded(Decode(trimmed), loose);
      } else if trimmed != "/" {
        var tokens := Tokens(loose(trimmed));
        assert tokens != [] ==> tokens[0] != "";
        NormalizeEncoded(tokens, loose);
      }
    }
  }

  /**
    A position survives encoding and normalising exactly when its last key is not blank-ended and it is not
    the root's empty key.
   */
  lemma PositionKept(tokens: seq<string>, loose: string -> seq<string>)
    ensures Decode(Normalize(Some(Encode(tokens)), loose)) == tokens <==>
      tokens != [""] && (tokens != [] ==> !EndsInSpace(tokens[|tokens| - 1]))
  {
    DecodeEncode(tokens);
    if tokens != [""] && (tokens != [] ==> !EndsInSpace(tokens[|tokens| - 1])) {
      NormalizeEncoded(tokens, loose);
    } else if tokens == [""] {
      NormalizeEncoded([], loose);
      EncodeInjective([], [""]);
    } else {
      NormalizedEnd(Encode(tokens), loose);
    }
  }

  lemma NormalizedEnd(pointer: string, loose: string -> seq<string>)
    requires pointer != "" && pointer[0] == '/'
    ensures var kept := Decode(Normalize(Some(pointer), loose)); kept != [] ==> !EndsInSpace(kept[|kept| - 1])
  {
    hide Trim, IsSpace, EndsInSpace, Split, Join;
    var trimmed := Trim(pointer);
    SlashFirst(pointer);
    if trimmed != "/" {
      DecodeEnd(trimmed);
      EncodeEnd(Decode(trimmed));
      DecodeEncode(Decode(trimmed));
    }
  }

  lemma {:induction false} SlashFirst(s: string)
    requires s != "" && s[0] == '/'
    ensures Trim(s) != "" && Trim(s)[0] == '/'
    decreases |s|
  {
    if EndsInSpace(s) {
      SlashFirst(s[..|s| - 1]);
    }
  }
}
