/** JSON pointer text (RFC 6901, sections 3 and 4): escaping, splitting into reference tokens, array indices. */
module JsonPointer {
  import opened Decimal
  import opened Wrappers

  /** The reference tokens of a pointer, unescaped. */
  type Path = seq<string>

  /** What a pointer, a patch or a standard container raises; numbered errors carry the library's number. */
  datatype Error =
    | Numbered(id: nat)
    | StdInvalidArgument
    | StdOutOfRange
    | StdLengthError
    | AssertionFailed

  // ---------- replace_substring ----------

  predicate OccursAt(s: string, f: string, i: nat) {
    i + |f| <= |s| && s[i..i + |f|] == f
  }

  /** Every occurrence of `f`, found from left to right without overlap, replaced by `t`. */
  function ReplaceAll(s: string, f: string, t: string): (r: string)
    requires f != ""
    decreases |s|
  {
    if |s| < |f| then s
    else if s[..|f|] == f then t + ReplaceAll(s[|f|..], f, t)
    else [s[0]] + ReplaceAll(s[1..], f, t)
  }

  /** `s.find(f, from)`: the first occurrence at or after `from`, or `|s|` for `npos`. */
  method Find(s: string, f: string, from: nat) returns (pos: nat)
    requires f != "" && from <= |s|
    ensures from <= pos <= |s|
    ensures pos < |s| ==> OccursAt(s, f, pos)
    ensures forall i | from <= i < pos :: !OccursAt(s, f, i)
  {
    pos := from;
    while pos + |f| <= |s| && s[pos..pos + |f|] != f
      invariant from <= pos <= |s|
      invariant forall i | from <= i < pos :: !OccursAt(s, f, i)
    {
      pos := pos + 1;
    }
    if |s| < pos + |f| {
      pos := |s|;
    }
  }

  lemma OccursInSuffix(s: string, f: string, from: nat, i: nat)
    requires from <= |s|
    ensures OccursAt(s[from..], f, i) <==> OccursAt(s, f, from + i)
  {
  }

  /** The text when everything before `pos` is final and the rest is still to be replaced. */
  function Pending(s: string, f: string, t: string, pos: nat): (r: string)
    requires f != "" && pos <= |s|
  {
    s[..pos] + ReplaceAll(s[pos..], f, t)
  }

  lemma ReplaceAllSkips(s: string, f: string, t: string)
    requires f != "" && s != "" && !OccursAt(s, f, 0)
    ensures ReplaceAll(s, f, t) == [s[0]] + ReplaceAll(s[1..], f, t)
  {
  }

  lemma {:induction false} PendingSkips(s: string, f: string, t: string, from: nat, pos: nat)
    requires f != "" && from <= pos <= |s|
    requires forall i | from <= i < pos :: !OccursAt(s, f, i)
    ensures Pending(s, f, t, from) == Pending(s, f, t, pos)
    decreases pos - from
  {
    if from < pos {
      OccursInSuffix(s, f, from, 0);
      ReplaceAllSkips(s[from..], f, t);
      var rest := ReplaceAll(s[from + 1..], f, t);
      assert s[from..][1..] == s[from + 1..];
      assert s[..from] + ([s[from]] + rest) == s[..from + 1] + rest;
      PendingSkips(s, f, t, from + 1, pos);
    }
  }

  lemma PendingReplaces(s: string, f: string, t: string, pos: nat)
    requires f != "" && OccursAt(s, f, pos)
    ensures Pending(s[..pos] + t + s[pos + |f|..], f, t, pos + |t|) == Pending(s, f, t, pos)
  {
  }

  /** `replace_substring`: the search resumes after each inserted text. */
  method ReplaceSubstring(input: string, f: string, t: string) returns (s: string)
    requires f != ""
    ensures s == ReplaceAll(input, f, t)
  {
    s := input;
    var pos: nat := Find(s, f, 0);
    PendingSkips(s, f, t, 0, pos);
    assert s[0..] == s && s[..0] + ReplaceAll(s, f, t) == ReplaceAll(s, f, t);
    while pos < |s|
      invariant pos <= |s|
      invariant pos < |s| ==> OccursAt(s, f, pos)
      invariant Pending(s, f, t, pos) == ReplaceAll(input, f, t)
      decreases |s| - pos
    {
      PendingReplaces(s, f, t, pos);
      s := s[..pos] + t + s[pos + |f|..];
      var resume := pos + |t|;
      pos := Find(s, f, resume);
      PendingSkips(s, f, t, resume, pos);
    }
    assert s[..pos] == s;
  }

  // ---------- escape and unescape ----------

  function Escape(s: string): (r: string) {
    ReplaceAll(ReplaceAll(s, "~", "~0"), "/", "~1")
  }

  function Unescape(s: string): (r: string) {
    ReplaceAll(ReplaceAll(s, "~1", "/"), "~0", "~")
  }

  /** The two passes of `escape` seen as one substitution per character. */
  function EscapeChar(c: char): (r: string) {
    if c == '~' then "~0" else if c == '/' then "~1" else [c]
  }

  lemma {:induction false} EscapeByChar(c: char, s: string)
    ensures Escape("") == ""
    ensures Escape([c] + s) == EscapeChar(c) + Escape(s)
  {
    var cs := [c] + s;
    assert cs[1..] == s && cs[..1] == [c];
    var rest := ReplaceAll(s, "~", "~0");
    if c == '~' {
      var mid := "~0" + rest;
      assert ReplaceAll(cs, "~", "~0") == mid;
      assert mid[..1] == "~" && mid[1..] == "0" + rest && mid[1..][..1] == "0" && mid[1..][1..] == rest;
      assert ReplaceAll(mid[1..], "/", "~1") == "0" + ReplaceAll(rest, "/", "~1");
    } else {
      var mid := [c] + rest;
      assert ReplaceAll(cs, "~", "~0") == mid;
      assert mid[..1] == [c] && mid[1..] == rest;
    }
  }

  /** Every '~' starts one of the two escapes: what `split` checks of a token. */
  predicate TildesEscaped(s: string) {
    forall i | 0 <= i < |s| && s[i] == '~' :: i + 1 < |s| && s[i + 1] in ['0', '1']
  }

  /** One character of a token as it is written: a plain character or a two-character escape. */
  lemma UnescapeByChar(c: char, s: string)
    requires TildesEscaped(s)
    ensures Unescape("") == ""
    ensures Unescape(EscapeChar(c) + s) == [c] + Unescape(s)
  {
    var w := EscapeChar(c) + s;
    var rest := ReplaceAll(s, "~1", "/");
    if c == '/' {
      assert w[..2] == "~1" && w[2..] == s;
      assert ReplaceAll(w, "~1", "/") == "/" + rest;
      var mid := "/" + rest;
      assert mid[1..] == rest;
      assert |mid| >= 2 ==> mid[..2][0] == '/';
    } else if c == '~' {
      assert w[..2] == "~0" && w[1..] == "0" + s && w[1..][1..] == s;
      assert |w[1..]| >= 2 ==> w[1..][..2][0] == '0';
      assert ReplaceAll(w[1..], "~1", "/") == "0" + rest;
      var mid := "~0" + rest;
      assert ReplaceAll(w, "~1", "/") == "~" + ("0" + rest) == mid;
      assert mid[..2] == "~0" && mid[2..] == rest;
    } else {
      assert w[1..] == s;
      assert |w| >= 2 ==> w[..2][0] == c;
      assert ReplaceAll(w, "~1", "/") == [c] + rest;
      var mid := [c] + rest;
      assert mid[1..] == rest;
      assert |mid| >= 2 ==> mid[..2][0] == c;
    }
  }

  lemma {:induction false} EscapedText(s: string)
    ensures TildesEscaped(Escape(s)) && '/' !in Escape(s)
    ensures Unescape(Escape(s)) == s
  {
    if s == "" {
      EscapeByChar(' ', "");
      UnescapeByChar(' ', "");
    } else {
      EscapedText(s[1..]);
      assert s == [s[0]] + s[1..];
      EscapeByChar(s[0], s[1..]);
      UnescapeByChar(s[0], Escape(s[1..]));
    }
  }

  /** The other direction: an escaped token without slash is the escape of what it unescapes to. */
  lemma {:induction false} UnescapedText(s: string)
    requires TildesEscaped(s) && '/' !in s
    ensures Escape(Unescape(s)) == s
    decreases |s|
  {
    if s == "" {
      EscapeByChar(' ', "");
      UnescapeByChar(' ', "");
    } else {
      var c := if s[0] != '~' then s[0] else if s[1] == '0' then '~' else '/';
      var rest := s[|EscapeChar(c)|..];
      assert s == EscapeChar(c) + rest;
      forall i | 0 <= i < |rest| && rest[i] == '~' ensures i + 1 < |rest| && rest[i + 1] in ['0', '1'] {
        assert s[|EscapeChar(c)| + i] == '~';
      }
      UnescapedText(rest);
      UnescapeByChar(c, rest);
      EscapeByChar(c, Unescape(rest));
    }
  }

  // ---------- to_string and split ----------

  /** `to_string`: a slash and the escaped token, for each token. */
  function Render(path: Path): (s: string) {
    if path == [] then "" else "/" + Escape(path[0]) + Render(path[1..])
  }

  lemma {:induction false} RenderAppends(p: Path, q: Path)
    ensures Render(p + q) == Render(p) + Render(q)
  {
    if p == [] {
      assert p + q == q;
    } else {
      assert (p + q)[1..] == p[1..] + q;
      RenderAppends(p[1..], q);
    }
  }

  function SlashAt(s: string): (n: nat)
    ensures n <= |s| && forall i | 0 <= i < n :: s[i] != '/'
    ensures n < |s| ==> s[n] == '/'
  {
    if s == "" || s[0] == '/' then 0 else 1 + SlashAt(s[1..])
  }

  /** The tokens of a pointer text whose leading slash has been taken off. */
  function Tokens(s: string): (r: Result<Path, Error>)
    ensures r.Ok? ==> r.value != []
    decreases |s|
  {
    var slash := SlashAt(s);
    if !TildesEscaped(s[..slash]) then Err(Numbered(108))
    else if slash == |s| then Ok([Unescape(s)])
    else Prepend([Unescape(s[..slash])], Tokens(s[slash + 1..]))
  }

  function Prepend(tokens: Path, r: Result<Path, Error>): (result: Result<Path, Error>) {
    match r
    case Ok(rest) => Ok(tokens + rest)
    case Err(_) => r
  }

  lemma PrependTwice(p: Path, q: Path, r: Result<Path, Error>)
    ensures Prepend(p, Prepend(q, r)) == Prepend(p + q, r)
    ensures Prepend([], r) == r
  {
    if r.Ok? {
      assert p + (q + r.value) == (p + q) + r.value;
      assert [] + r.value == r.value;
    }
  }

  /** `json_pointer(s)`. */
  function ParsePointer(s: string): (r: Result<Path, Error>) {
    if s == "" then Ok([])
    else if s[0] != '/' then Err(Numbered(107))
    else Tokens(s[1..])
  }

  /** `s.find_first_of(c, from)`, with `|s|` for `npos`. */
  method FindChar(s: string, c: char, from: nat) returns (pos: nat)
    requires from <= |s|
    ensures from <= pos <= |s| && forall i | from <= i < pos :: s[i] != c
    ensures pos < |s| ==> s[pos] == c
  {
    pos := from;
    while pos < |s| && s[pos] != c
      invariant from <= pos <= |s| && forall i | from <= i < pos :: s[i] != c
    {
      pos := pos + 1;
    }
  }

  /** `split` checks one token: each '~' it finds must start an escape. */
  method CheckTildes(token: string) returns (escaped: bool)
    ensures escaped <==> TildesEscaped(token)
  {
    var pos: nat := FindChar(token, '~', 0);
    while pos < |token|
      invariant pos < |token| ==> token[pos] == '~'
      invariant forall i | 0 <= i < pos && i < |token| && token[i] == '~' ::
        i + 1 < |token| && token[i + 1] in ['0', '1']
      decreases |token| - pos
    {
      if pos == |token| - 1 || token[pos + 1] !in ['0', '1'] {
        return false;
      }
      pos := FindChar(token, '~', pos + 1);
    }
    return true;
  }

  method UnescapeInPlace(token: string) returns (s: string)
    ensures s == Unescape(token)
  {
    s := ReplaceSubstring(token, "~1", "/");
    s := ReplaceSubstring(s, "~0", "~");
  }

  lemma SlashFound(s: string, start: nat, slash: nat)
    requires start <= slash <= |s|
    requires slash < |s| ==> s[slash] == '/'
    requires forall i | start <= i < slash :: s[i] != '/'
    ensures SlashAt(s[start..]) == slash - start
  {
    var n := SlashAt(s[start..]);
  }

  /** What one round of `split` settles, with the tokens before `start` already found. */
  lemma TokensFrom(s: string, start: nat, slash: nat, found: Path)
    requires start <= slash <= |s|
    requires slash < |s| ==> s[slash] == '/'
    requires forall i | start <= i < slash :: s[i] != '/'
    ensures var token := s[start..slash];
      Prepend(found, Tokens(s[start..])) ==
        if !TildesEscaped(token) then Err(Numbered(108))
        else if slash == |s| then Ok(found + [Unescape(token)])
        else Prepend(found + [Unescape(token)], Tokens(s[slash + 1..]))
  {
    hide Unescape, TildesEscaped, SlashAt;
    SlashFound(s, start, slash);
    assert s[start..slash] == s[start..][..slash - start];
    if slash == |s| {
      assert s[start..slash] == s[start..];
    } else {
      assert s[start..][slash - start + 1..] == s[slash + 1..];
      PrependTwice(found, [Unescape(s[start..slash])], Tokens(s[slash + 1..]));
    }
  }

  /** `split`, with its two cursors; `start == 0` ends the loop as in the original. */
  method Split(s: string) returns (r: Result<Path, Error>)
    ensures r == ParsePointer(s)
  {
    hide Unescape, TildesEscaped, SlashAt, Tokens, Prepend;
    if s == "" {
      return Ok([]);
    }
    if s[0] != '/' {
      return Err(Numbered(107));
    }
    var result: Path := [];
    var start: nat := 1;
    PrependTwice([], [], Tokens(s[1..]));
    while start != 0
      invariant start <= |s|
      invariant start == 0 ==> ParsePointer(s) == Ok(result)
      invariant start != 0 ==> ParsePointer(s) == Prepend(result, Tokens(s[start..]))
      decreases if start == 0 then 0 else 1 + |s| - start
    {
      var slash: nat := FindChar(s, '/', start);
      var token := s[start..slash];
      TokensFrom(s, start, slash, result);
      var escaped := CheckTildes(token);
      if !escaped {
        return Err(Numbered(108));
      }
      var unescaped := UnescapeInPlace(token);
      if slash == |s| {
        start := 0;
      } else {
        start := slash + 1;
      }
      result := result + [unescaped];
    }
    return Ok(result);
  }

  lemma TokensUnfold(first: string, rest: string)
    requires TildesEscaped(first) && '/' !in first && (rest == "" || rest[0] == '/')
    ensures Tokens(first + rest) ==
      if rest == "" then Ok([Unescape(first)]) else Prepend([Unescape(first)], Tokens(rest[1..]))
  {
    hide Unescape, TildesEscaped;
    var s := first + rest;
    SlashFound(s, 0, |first|);
    assert s[0..] == s && s[..|first|] == first;
    if rest == "" {
      assert s == first;
    } else {
      assert s[|first| + 1..] == rest[1..];
    }
  }

  lemma RenderStarts(path: Path)
    ensures if path == [] then Render(path) == "" else Render(path) != "" && Render(path)[0] == '/'
  {
    hide Escape;
  }

  lemma {:induction false} TokensOfRender(path: Path)
    requires path != []
    ensures Tokens(Render(path)[1..]) == Ok(path)
  {
    hide Escape, Unescape, Tokens, TildesEscaped, Render;
    var first, rest := Escape(path[0]), Render(path[1..]);
    EscapedText(path[0]);
    assert path == [path[0]] + path[1..];
    RenderStep(path[0], path[1..]);
    assert Render(path)[1..] == first + rest;
    RenderStarts(path[1..]);
    TokensUnfold(first, rest);
    if path[1..] == [] {
      assert path == [path[0]];
    } else {
      TokensOfRender(path[1..]);
    }
  }

  /** `ptr == json_pointer(ptr.to_string())`. */
  lemma RenderRoundTrip(path: Path)
    ensures ParsePointer(Render(path)) == Ok(path)
  {
    if path != [] {
      TokensOfRender(path);
    }
  }

  lemma {:induction false} RenderOfTokens(s: string)
    requires Tokens(s).Ok?
    ensures Render(Tokens(s).value) == "/" + s
    decreases |s|
  {
    hide Escape, Unescape, Tokens, Render, TildesEscaped, SlashAt;
    var slash := SlashAt(s);
    FirstToken(s);
    var first := s[..slash];
    UnescapedText(first);
    if slash == |s| {
      RenderStep(Unescape(first), []);
      RenderNothing();
      assert first == s && "/" + s + "" == "/" + s;
      assert [Unescape(first)] + [] == [Unescape(first)];
    } else {
      var rest := s[slash + 1..];
      RenderOfTokens(rest);
      RenderStep(Unescape(first), Tokens(rest).value);
      SlashesJoin(first, rest);
    }
  }

  lemma SlashesJoin(first: string, rest: string)
    ensures "/" + first + ("/" + rest) == "/" + (first + "/" + rest)
  {
  }

  /** What `Tokens` takes off an accepted text at its first slash. */
  lemma FirstToken(s: string)
    requires Tokens(s).Ok?
    ensures var slash := SlashAt(s);
      && TildesEscaped(s[..slash]) && '/' !in s[..slash]
      && if slash == |s| then Tokens(s).value == [Unescape(s[..slash])]
         else
           && s == s[..slash] + "/" + s[slash + 1..]
           && Tokens(s[slash + 1..]).Ok?
           && Tokens(s).value == [Unescape(s[..slash])] + Tokens(s[slash + 1..]).value
  {
    hide Unescape, TildesEscaped, Tokens, SlashAt;
    var slash := SlashAt(s);
    var first, rest := s[..slash], s[slash..];
    FirstEscaped(s);
    assert s == first + rest;
    TokensUnfold(first, rest);
    if slash < |s| {
      assert rest[1..] == s[slash + 1..] && rest == "/" + rest[1..];
    }
  }

  lemma FirstEscaped(s: string)
    requires Tokens(s).Ok?
    ensures TildesEscaped(s[..SlashAt(s)])
  {
    hide TildesEscaped, Unescape;
  }

  lemma RenderStep(token: string, rest: Path)
    ensures Render([token] + rest) == "/" + Escape(token) + Render(rest)
  {
    hide Escape;
    assert ([token] + rest)[1..] == rest;
  }

  lemma RenderNothing()
    ensures Render([]) == ""
  {
  }

  /** No two accepted texts denote the same tokens: what parses prints back unchanged. */
  lemma ParseRoundTrip(s: string)
    requires ParsePointer(s).Ok?
    ensures Render(ParsePointer(s).value) == s
  {
    if s != "" {
      RenderOfTokens(s[1..]);
    }
  }

  // ---------- Array indices ----------

  /** `array_index`: an `int`, sign and leading blanks included, as `stoi` reads it. */
  function ArrayIndex(token: string): (r: Result<int, Error>) {
    match Stoi(token)
    case Err(InvalidArgument) => Err(StdInvalidArgument)
    case Err(OutOfRange) => Err(StdOutOfRange)
    case Ok((value, processed)) => if processed == |token| then Ok(value) else Err(Numbered(404))
  }

  /** A printed index needs no escaping and reads back, unless it exceeds an `int`. */
  lemma IndexToken(n: nat)
    ensures Escape(ToString(n)) == ToString(n)
    ensures ToString(n) != "-" && !(|ToString(n)| > 1 && ToString(n)[0] == '0')
    ensures ArrayIndex(ToString(n)) == if n <= INT_MAX then Ok(n) else Err(StdOutOfRange)
  {
    ToStringRoundTrip(n);
    StoiToString(n, "");
    assert ToString(n) + "" == ToString(n);
    PlainTextNeedsNoEscape(ToString(n));
  }

  lemma {:induction false} PlainTextNeedsNoEscape(s: string)
    requires '~' !in s && '/' !in s
    ensures Escape(s) == s
  {
    if s == "" {
      EscapeByChar(' ', "");
    } else {
      PlainTextNeedsNoEscape(s[1..]);
      EscapeByChar(s[0], s[1..]);
      assert s == [s[0]] + s[1..];
    }
  }
}
