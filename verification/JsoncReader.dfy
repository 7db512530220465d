/** The comment-tolerant JSON reader: a character scanner that drops `//` comments outside strings.
    It is proved against a grammar of tokens. */
module JsoncReader {
  import opened Wrappers

  // ---------------------------------------------------------------- the scanner as a function

  /** The text from the first newline on; empty if there is none. */
  function FromNewline(t: string): (r: string)
    ensures |r| <= |t|
  {
    if t == "" then "" else if t[0] == '\n' then t else FromNewline(t[1..])
  }

  predicate StartsComment(t: string) {
    |t| >= 2 && t[0] == '/' && t[1] == '/'
  }

  /** What the scanner keeps of a text it meets outside a string. */
  function Strip(t: string): string
    decreases |t|
  {
    if t == "" then ""
    else if t[0] == '"' then ['"'] + StripInside(t[1..], false)
    else if StartsComment(t) then Strip(FromNewline(t[2..]))
    else [t[0]] + Strip(t[1..])
  }

  /** Inside a string, after an escape or not. */
  function StripInside(t: string, escaped: bool): string
    decreases |t|
  {
    if t == "" then ""
    else if escaped then [t[0]] + StripInside(t[1..], false)
    else if t[0] == '\\' then [t[0]] + StripInside(t[1..], true)
    else if t[0] == '"' then [t[0]] + Strip(t[1..])
    else [t[0]] + StripInside(t[1..], false)
  }

  lemma {:induction false} SkipToNewline(text: string, i: nat, j: nat)
    requires i <= j <= |text| && forall k | i <= k < j :: text[k] != '\n'
    ensures FromNewline(text[i..]) == FromNewline(text[j..])
    decreases j - i
  {
    if i < j {
      assert text[i..][0] == text[i] && text[i..][1..] == text[i + 1..];
      SkipToNewline(text, i + 1, j);
    }
  }

  /** `text.find("\n", i)`. */
  method FindNewline(text: string, i: nat) returns (found: bool, j: nat)
    requires i <= |text|
    ensures i <= j <= |text| && (forall k | i <= k < j :: text[k] != '\n')
    ensures found ==> j < |text| && text[j] == '\n'
    ensures !found ==> j == |text|
  {
    j := i;
    while j < |text| && text[j] != '\n'
      invariant i <= j <= |text| && forall k | i <= k < j :: text[k] != '\n'
    {
      j := j + 1;
    }
    found := j < |text|;
  }

  /** What is still to be output when the loop stands at `i`. */
  function Remaining(text: string, i: nat, inString: bool, escaped: bool): string
    requires i <= |text|
  {
    if inString then StripInside(text[i..], escaped) else Strip(text[i..])
  }

  /** The current character is output and the state moves on. */
  lemma Outputs(out: string, text: string, i: nat, inString: bool, escaped: bool)
    requires i < |text| && (escaped ==> inString)
    requires inString || !StartsComment(text[i..])
    ensures var c := text[i];
      var inString' := if inString then escaped || c != '"' else c == '"';
      var escaped' := inString && !escaped && c == '\\';
      out + Remaining(text, i, inString, escaped) == out + [c] + Remaining(text, i + 1, inString', escaped')
  {
    assert text[i..][0] == text[i] && text[i..][1..] == text[i + 1..];
    Regroup(out, [text[i]], StripInside(text[i + 1..], false));
    Regroup(out, [text[i]], StripInside(text[i + 1..], true));
    Regroup(out, [text[i]], Strip(text[i + 1..]));
  }

  /** A comment is skipped up to its newline. */
  lemma Skips(text: string, i: nat, j: nat)
    requires i + 1 < |text| && text[i] == '/' && text[i + 1] == '/'
    requires i <= j <= |text| && (forall k | i <= k < j :: text[k] != '\n') && (j < |text| ==> text[j] == '\n')
    ensures Remaining(text, i, false, false) == Remaining(text, j, false, false)
  {
    assert text[i..][2..] == text[i + 2..];
    SkipToNewline(text, i + 2, j);
    if j < |text| { assert text[j..][0] == '\n'; }
  }

  /** The scanning loop; it ends on every text and computes the stripped text. */
  method Jsonc(text: string) returns (out: string)
    ensures out == Strip(text)
  {
    out := "";
    var i, inString, escaped := 0, false, false;
    assert text[0..] == text;
    while i < |text|
      invariant i <= |text|
      invariant escaped ==> inString
      invariant out + Remaining(text, i, inString, escaped) == Strip(text)
    {
      var c := text[i];
      if inString {
        Outputs(out, text, i, inString, escaped);
        out := out + [c];
        if escaped {
          escaped := false;
        } else if c == '\\' {
          escaped := true;
        } else if c == '"' {
          inString := false;
        }
        i := i + 1;
        continue;
      }
      if c == '"' {
        Outputs(out, text, i, inString, escaped);
        inString := true;
        out := out + [c];
        i := i + 1;
        continue;
      }
      if i + 1 < |text| && text[i] == '/' && text[i + 1] == '/' {
        var found, j := FindNewline(text, i);
        Skips(text, i, j);
        i := j;
        if !found {
          break;
        }
        continue;
      }
      Outputs(out, text, i, inString, escaped);
      out := out + [c];
      i := i + 1;
    }
  }

  // ---------------------------------------------------------------- the grammar

  /** A character outside strings, a string literal (its characters after the opening quote, and
      whether it is closed), or a line comment without its newline. */
  datatype Token = Plain(c: char) | Literal(body: string, closed: bool) | Comment(body: string)

  function TokenText(t: Token): string {
    match t
    case Plain(c) => [c]
    case Literal(body, closed) => ['"'] + body + if closed then ['"'] else ""
    case Comment(body) => "//" + body
  }

  function Render(ts: seq<Token>): string {
    if ts == [] then "" else TokenText(ts[0]) + Render(ts[1..])
  }

  /** The characters of a literal (section 7 of RFC 8259): a quote appears only escaped, and a closed
      literal does not end in the middle of an escape. */
  predicate BodyOk(body: string, escaped: bool, closed: bool) {
    if body == "" then closed ==> !escaped
    else if escaped then BodyOk(body[1..], false, closed)
    else if body[0] == '"' then false
    else BodyOk(body[1..], body[0] == '\\', closed)
  }

  /** A token list a text can consist of: an unclosed literal is last, a comment runs to the end of its
      line, and a lone slash is not followed by another. */
  predicate Lexical(ts: seq<Token>) {
    if ts == [] then true
    else
      && Lexical(ts[1..])
      && match ts[0]
         case Plain(c) => c != '"' && (c == '/' ==> Render(ts[1..]) == "" || Render(ts[1..])[0] != '/')
         case Literal(body, closed) => BodyOk(body, false, closed) && (closed || ts[1..] == [])
         case Comment(body) => '\n' !in body && (ts[1..] == [] || ts[1] == Plain('\n'))
  }

  function WithoutComments(ts: seq<Token>): seq<Token> {
    if ts == [] then []
    else if ts[0].Comment? then WithoutComments(ts[1..])
    else [ts[0]] + WithoutComments(ts[1..])
  }

  /** What follows the body of a literal, and what the scanner makes of it there. */
  predicate Follows(closed: bool, tail: string, stripped: string) {
    if closed then tail != "" && tail[0] == '"' && stripped == ['"'] + Strip(tail[1..])
    else tail == "" && stripped == ""
  }

  lemma {:induction false} StripBody(body: string, escaped: bool, closed: bool, tail: string, stripped: string)
    requires BodyOk(body, escaped, closed) && Follows(closed, tail, stripped)
    ensures StripInside(body + tail, escaped) == body + stripped
  {
    if body == "" {
      assert body + tail == tail && body + stripped == stripped;
    } else {
      assert (body + tail)[0] == body[0] && (body + tail)[1..] == body[1..] + tail;
      StripBody(body[1..], !escaped && body[0] == '\\', closed, tail, stripped);
      assert body + stripped == [body[0]] + (body[1..] + stripped);
    }
  }

  lemma StripLiteral(body: string, escaped: bool, closed: bool, rest: string)
    requires BodyOk(body, escaped, closed) && (closed || rest == "")
    ensures var end := if closed then ['"'] else "";
      StripInside(body + end + rest, escaped) == body + end + Strip(rest)
  {
    var end := if closed then ['"'] else "";
    assert closed ==> (end + rest)[1..] == rest;
    StripBody(body, escaped, closed, end + rest, end + Strip(rest));
    Regroup(body, end, rest);
    Regroup(body, end, Strip(rest));
  }

  lemma {:induction false} SkipComment(body: string, rest: string)
    requires '\n' !in body && (rest == "" || rest[0] == '\n')
    ensures FromNewline(body + rest) == rest
  {
    if body == "" {
      assert body + rest == rest;
    } else {
      assert (body + rest)[1..] == body[1..] + rest;
      assert body[0] in body;
      SkipComment(body[1..], rest);
    }
  }

  /** The scanner removes exactly the comments: every string literal and every other character stays. */
  lemma {:induction false} StripsExactlyComments(ts: seq<Token>)
    requires Lexical(ts)
    ensures Strip(Render(ts)) == Render(WithoutComments(ts))
  {
    if ts != [] {
      StripsExactlyComments(ts[1..]);
      StripFirst(ts[0], Render(ts[1..]), ts);
      if !ts[0].Comment? {
        assert ([ts[0]] + WithoutComments(ts[1..]))[1..] == WithoutComments(ts[1..]);
      }
    }
  }

  /** What the scanner does with the first token. */
  lemma StripFirst(first: Token, rest: string, ts: seq<Token>)
    requires Lexical(ts) && ts != [] && ts[0] == first && rest == Render(ts[1..])
    ensures Strip(Render(ts)) == (if first.Comment? then "" else TokenText(first)) + Strip(rest)
  {
    match first
    case Plain(c) => StripPlain(c, rest);
    case Literal(body, closed) => StripQuoted(body, closed, rest);
    case Comment(body) =>
      RestOfComment(ts);
      StripComment(body, rest);
  }

  lemma StripPlain(c: char, rest: string)
    requires c != '"' && (c == '/' ==> rest == "" || rest[0] != '/')
    ensures Strip([c] + rest) == [c] + Strip(rest)
  {
    var t := [c] + rest;
    assert t[0] == c && t[1..] == rest;
  }

  lemma StripQuoted(body: string, closed: bool, rest: string)
    requires BodyOk(body, false, closed) && (closed || rest == "")
    ensures Strip(TokenText(Literal(body, closed)) + rest) == TokenText(Literal(body, closed)) + Strip(rest)
  {
    var end := if closed then ['"'] else "";
    StripLiteral(body, false, closed, rest);
    StripOpening(body + end + rest);
    Regroup4(['"'], body, end, rest);
    Regroup4(['"'], body, end, Strip(rest));
  }

  lemma StripOpening(tail: string)
    ensures Strip(['"'] + tail) == ['"'] + StripInside(tail, false)
  {
    assert (['"'] + tail)[1..] == tail;
  }

  lemma Regroup4(a: string, b: string, c: string, d: string)
    ensures a + (b + c + d) == a + b + c + d
  {
  }

  lemma StripComment(body: string, rest: string)
    requires '\n' !in body && (rest == "" || rest[0] == '\n')
    ensures Strip(TokenText(Comment(body)) + rest) == Strip(rest)
  {
    var t := "//" + body + rest;
    assert t[0] == '/' && t[1] == '/' && t[2..] == body + rest;
    SkipComment(body, rest);
  }

  lemma RestOfComment(ts: seq<Token>)
    requires Lexical(ts) && ts != [] && ts[0].Comment?
    ensures Render(ts[1..]) == "" || Render(ts[1..])[0] == '\n'
  {
    if ts[1..] != [] {
      assert ts[1..][0] == Plain('\n');
    }
  }

  // ---------------------------------------------------------------- every text is a token list

  function BodyLength(t: string, escaped: bool): nat {
    if t == "" then 0
    else if escaped then 1 + BodyLength(t[1..], false)
    else if t[0] == '"' then 0
    else 1 + BodyLength(t[1..], t[0] == '\\')
  }

  lemma {:induction false} BodyLengthOk(t: string, escaped: bool)
    ensures var n := BodyLength(t, escaped);
      && n <= |t| && BodyOk(t[..n], escaped, n < |t|) && (n < |t| ==> t[n] == '"')
  {
    var n := BodyLength(t, escaped);
    if t != "" && (escaped || t[0] != '"') {
      BodyLengthOk(t[1..], !escaped && t[0] == '\\');
      assert t[..n][1..] == t[1..][..n - 1];
    }
  }

  /** Any text splits into tokens. */
  function Lex(t: string): seq<Token>
    decreases |t|
  {
    if t == "" then []
    else if t[0] == '"' then
      BodyLengthOk(t[1..], false);
      var n := BodyLength(t[1..], false);
      if n < |t| - 1 then [Literal(t[1..][..n], true)] + Lex(t[n + 2..]) else [Literal(t[1..], false)]
    else if StartsComment(t) then
      var rest := FromNewline(t[2..]);
      [Comment(t[2..|t| - |rest|])] + Lex(rest)
    else [Plain(t[0])] + Lex(t[1..])
  }

  lemma {:induction false} NewlineSplits(t: string)
    ensures var rest := FromNewline(t); var body := t[..|t| - |rest|];
      body + rest == t && '\n' !in body && (rest == "" || rest[0] == '\n')
  {
    if t != "" && t[0] != '\n' {
      NewlineSplits(t[1..]);
      var rest := FromNewline(t);
      assert t[..|t| - |rest|] == [t[0]] + t[1..][..|t| - 1 - |rest|];
    }
  }

  /** A literal that is closed: its token is followed by the tokens of the rest. */
  lemma LexClosed(t: string, body: string, rest: string)
    requires t != "" && t[0] == '"' && BodyLength(t[1..], false) == |body| < |t| - 1
    requires body == t[1..][..|body|] && rest == t[|body| + 2..]
    ensures Lex(t) == [Literal(body, true)] + Lex(rest)
    ensures BodyOk(body, false, true) && TokenText(Literal(body, true)) + rest == t
  {
    BodyLengthOk(t[1..], false);
    ClosedText(t, body, rest);
  }

  lemma ClosedText(t: string, body: string, rest: string)
    requires |t| >= |body| + 2 && t[0] == '"' && t[1..][|body|] == '"'
    requires body == t[1..][..|body|] && rest == t[|body| + 2..]
    ensures ['"'] + body + ['"'] + rest == t
  {
    assert t[1..][|body|] == t[|body| + 1];
  }

  /** A literal that never closes is the last token. */
  lemma LexUnclosed(t: string)
    requires t != "" && t[0] == '"' && BodyLength(t[1..], false) == |t| - 1
    ensures Lex(t) == [Literal(t[1..], false)]
    ensures BodyOk(t[1..], false, false) && TokenText(Literal(t[1..], false)) == t
  {
    BodyLengthOk(t[1..], false);
    assert t[1..][..|t| - 1] == t[1..];
  }

  lemma LexComment(t: string)
    requires StartsComment(t)
    ensures var rest := FromNewline(t[2..]); var ts := Lex(t);
      && ts != [] && ts[0].Comment? && ts[1..] == Lex(rest) && '\n' !in ts[0].body
      && TokenText(ts[0]) + rest == t && (rest != "" ==> Lex(rest) != [] && Lex(rest)[0] == Plain('\n'))
      && (rest == "" ==> Lex(rest) == [])
  {
    var rest := FromNewline(t[2..]);
    NewlineSplits(t[2..]);
    CommentBody(t, rest);
    LexNewline(rest);
  }

  lemma CommentBody(t: string, rest: string)
    requires StartsComment(t) && |rest| <= |t| - 2 && t[2..][..|t[2..]| - |rest|] + rest == t[2..]
    ensures t[2..|t| - |rest|] == t[2..][..|t[2..]| - |rest|]
    ensures "//" + t[2..|t| - |rest|] + rest == t
  {
    assert t == "//" + t[2..];
  }

  lemma LexNewline(rest: string)
    requires rest == "" || rest[0] == '\n'
    ensures rest == "" ==> Lex(rest) == []
    ensures rest != "" ==> Lex(rest) != [] && Lex(rest)[0] == Plain('\n')
  {
  }

  lemma {:induction false} LexRenders(t: string)
    ensures Render(Lex(t)) == t && Lexical(Lex(t))
    decreases |t|
  {
    if t != "" {
      if t[0] == '"' {
        BodyLengthOk(t[1..], false);
        var n := BodyLength(t[1..], false);
        if n < |t| - 1 {
          var body, rest := t[1..][..n], t[n + 2..];
          LexClosed(t, body, rest);
          LexRenders(rest);
          assert Lex(t)[1..] == Lex(rest);
        } else {
          LexUnclosed(t);
          assert Lex(t)[1..] == [];
        }
      } else if StartsComment(t) {
        LexComment(t);
        LexRenders(FromNewline(t[2..]));
      } else {
        LexRenders(t[1..]);
        assert Lex(t)[1..] == Lex(t[1..]);
        assert t == [t[0]] + t[1..];
      }
    }
  }

  /** Stripping any text is dropping its comment tokens. */
  lemma StripMeans(t: string)
    ensures Lexical(Lex(t)) && Render(Lex(t)) == t && Strip(t) == Render(WithoutComments(Lex(t)))
  {
    LexRenders(t);
    StripsExactlyComments(Lex(t));
  }

  /** A comment-free text is unchanged. */
  lemma CommentFreeUnchanged(t: string)
    ensures (forall k | k in Lex(t) :: !k.Comment?) <==> Strip(t) == t
  {
    StripMeans(t);
    WithoutNone(Lex(t));
  }

  lemma {:induction false} WithoutNone(ts: seq<Token>)
    ensures (forall k | k in ts :: !k.Comment?) <==> Render(WithoutComments(ts)) == Render(ts)
    ensures |Render(WithoutComments(ts))| <= |Render(ts)|
  {
    if ts != [] {
      WithoutNone(ts[1..]);
      assert ts == [ts[0]] + ts[1..];
      var kept := WithoutComments(ts[1..]);
      if ts[0].Comment? {
        assert ts[0] in ts;
      } else {
        assert ([ts[0]] + kept)[1..] == kept;
        var x := TokenText(ts[0]);
        assert Render(WithoutComments(ts)) == x + Render(kept) && Render(ts) == x + Render(ts[1..]);
        assert (x + Render(kept))[|x|..] == Render(kept) && (x + Render(ts[1..]))[|x|..] == Render(ts[1..]);
      }
    }
  }

  /** Dropping comments leaves a lexical list, of the same literals. */
  lemma {:induction false} WithoutIsLexical(ts: seq<Token>)
    requires Lexical(ts)
    ensures Lexical(WithoutComments(ts))
    ensures ts != [] && !ts[0].Comment? ==> WithoutComments(ts) != [] && WithoutComments(ts)[0] == ts[0]
  {
    if ts != [] {
      WithoutIsLexical(ts[1..]);
      var kept := WithoutComments(ts[1..]);
      if !ts[0].Comment? {
        assert ([ts[0]] + kept)[1..] == kept;
        if ts[0] == Plain('/') {
          SlashStaysLone(ts[1..]);
        }
      }
    }
  }

  lemma {:induction false} SlashStaysLone(ts: seq<Token>)
    requires Lexical(ts) && (Render(ts) == "" || Render(ts)[0] != '/')
    ensures var kept := Render(WithoutComments(ts)); kept == "" || kept[0] != '/'
  {
    if ts != [] {
      var x := TokenText(ts[0]);
      assert x != "" && Render(ts)[0] == x[0];
      assert !ts[0].Comment?;
      var kept := WithoutComments(ts[1..]);
      assert ([ts[0]] + kept)[1..] == kept;
    }
  }

  /** Stripping twice is stripping once. */
  lemma StripIdempotent(t: string)
    ensures Strip(Strip(t)) == Strip(t)
  {
    StripMeans(t);
    WithoutIsLexical(Lex(t));
    StripsExactlyComments(WithoutComments(Lex(t)));
    WithoutTwice(Lex(t));
  }

  lemma {:induction false} WithoutTwice(ts: seq<Token>)
    ensures WithoutComments(WithoutComments(ts)) == WithoutComments(ts)
  {
    if ts != [] {
      WithoutTwice(ts[1..]);
      var kept := WithoutComments(ts[1..]);
      if !ts[0].Comment? { assert ([ts[0]] + kept)[1..] == kept; }
    }
  }
}
