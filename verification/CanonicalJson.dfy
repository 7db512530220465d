/** Canonical JSON text: sorted keys, no spaces, non-ASCII kept. The encoder is shown to be a
    prefix code, hence injective: equal text means equal value. */
module CanonicalJson {
  import opened Text
  import opened Wrappers

  datatype Json =
    | Null
    | Bool(b: bool)
    | Int(n: int)
    | Float(token: string)  // the decimal text of a finite float
    | Str(s: string)
    | Arr(items: seq<Json>)
    | Obj(fields: map<string, Json>)

  /** A field that is absent reads as null. */
  function Field(j: Json, key: string): Json {
    if j.Obj? && key in j.fields then j.fields[key] else Null
  }

  predicate NumberChar(c: char) {
    '0' <= c <= '9' || c == '-' || c == '+' || c == '.' || c == 'e' || c == 'E'
  }

  predicate IntegerChar(c: char) {
    '0' <= c <= '9' || c == '-'
  }

  /** A float token is number text that no integer prints as. */
  predicate FloatToken(token: string) {
    (forall c | c in token :: NumberChar(c)) && exists c | c in token :: !IntegerChar(c)
  }

  predicate WellFormed(j: Json)
    decreases j
  {
    match j
    case Float(token) => FloatToken(token)
    case Arr(items) => forall x | x in items :: WellFormed(x)
    case Obj(fields) => forall k | k in fields :: WellFormed(fields[k])
    case _ => true
  }

  // ---------------------------------------------------------------- scalar text

  function Digit(d: nat): char
    requires d < 10
  {
    '0' + d as char
  }

  function Digits(n: nat): (r: string)
    ensures r != "" && forall c | c in r :: '0' <= c <= '9'
  {
    if n < 10 then [Digit(n)] else Digits(n / 10) + [Digit(n % 10)]
  }

  function IntText(n: int): (r: string)
    ensures r != "" && forall c | c in r :: IntegerChar(c)
  {
    if n < 0 then "-" + Digits(-n) else Digits(n)
  }

  function HexDigit(d: nat): char
    requires d < 16
  {
    if d < 10 then '0' + d as char else 'a' + (d - 10) as char
  }

  /** JSON string escapes (section 7 of RFC 8259) as Python writes them. */
  function Escape(c: char): (r: string)
    ensures r != "" && r[0] != '"'
  {
    if c == '"' then "\\\""
    else if c == '\\' then "\\\\"
    else if c == '\n' then "\\n"
    else if c == '\r' then "\\r"
    else if c == '\t' then "\\t"
    else if c as int == 8 then "\\b"
    else if c as int == 12 then "\\f"
    else if (c as int) < 32 then "\\u00" + [HexDigit(c as int / 16), HexDigit(c as int % 16)]
    else [c]
  }

  function EscapeAll(s: string): string {
    if s == "" then "" else Escape(s[0]) + EscapeAll(s[1..])
  }

  function HexValue(c: char): nat {
    if '0' <= c <= '9' then c as nat - '0' as nat else if 'a' <= c <= 'f' then c as nat - 'a' as nat + 10 else 0
  }

  /** How a reader takes the inside of a JSON string apart (section 7 of RFC 8259), one character and the rest. */
  function Unescape(t: string): Option<(char, string)> {
    if t == "" || t[0] == '"' then None
    else if t[0] != '\\' then Some((t[0], t[1..]))
    else if |t| == 1 then None
    else match t[1]
      case '"' => Some(('"', t[2..]))
      case '\\' => Some(('\\', t[2..]))
      case '/' => Some(('/', t[2..]))
      case 'b' => Some((8 as char, t[2..]))
      case 'f' => Some((12 as char, t[2..]))
      case 'n' => Some((10 as char, t[2..]))
      case 'r' => Some((13 as char, t[2..]))
      case 't' => Some((9 as char, t[2..]))
      case 'u' =>
        if |t| < 6 then None
        else
          var code := HexValue(t[2]) * 4096 + HexValue(t[3]) * 256 + HexValue(t[4]) * 16 + HexValue(t[5]);
          if 0xD800 <= code < 0xE000 then None else Some((code as char, t[6..]))
      case _ => None
  }

  function UnescapeAll(t: string): Option<string>
    decreases |t|
  {
    if t == "" then Some("")
    else
      match Unescape(t)
      case None => None
      case Some((c, rest)) =>
        if |rest| >= |t| then None
        else match UnescapeAll(rest) case None => None case Some(s) => Some([c] + s)
  }

  lemma UnescapeOne(c: char, rest: string)
    ensures Unescape(Escape(c) + rest) == Some((c, rest))
  {
    var e := Escape(c);
    assert (e + rest)[|e|..] == rest;
    if |e| == 6 { assert e[4] == HexDigit(c as int / 16) && e[5] == HexDigit(c as int % 16); }
  }

  /** A reader gets the text back. */
  lemma {:induction false} EscapedReadsBack(s: string)
    ensures UnescapeAll(EscapeAll(s)) == Some(s)
  {
    if s != "" {
      UnescapeOne(s[0], EscapeAll(s[1..]));
      EscapedReadsBack(s[1..]);
      assert s == [s[0]] + s[1..];
    }
  }

  function Quoted(s: string): string {
    "\"" + EscapeAll(s) + "\""
  }

  // ---------------------------------------------------------------- values

  function Join(parts: seq<string>): string {
    if parts == [] then ""
    else if |parts| == 1 then parts[0]
    else parts[0] + "," + Join(parts[1..])
  }

  function Encode(j: Json): string
    decreases j, 0
  {
    match j
    case Null => "null"
    case Bool(b) => if b then "true" else "false"
    case Int(n) => IntText(n)
    case Float(token) => token
    case Str(s) => Quoted(s)
    case Arr(items) => "[" + Join(Items(items)) + "]"
    case Obj(fields) => "{" + Join(Members(j, Ascending(fields.Keys))) + "}"
  }

  function Items(xs: seq<Json>): (r: seq<string>)
    ensures |r| == |xs|
    decreases xs, 1
  {
    if xs == [] then [] else [Encode(xs[0])] + Items(xs[1..])
  }

  function Member(key: string, text: string): string {
    Quoted(key) + ":" + text
  }

  function Members(j: Json, keys: seq<string>): (r: seq<string>)
    requires j.Obj? && forall k | k in keys :: k in j.fields
    ensures |r| == |keys|
    decreases j, 0, |keys|
  {
    if keys == [] then [] else [Member(keys[0], Encode(j.fields[keys[0]]))] + Members(j, keys[1..])
  }

  // ---------------------------------------------------------------- the encoder is a prefix code

  /** What may follow a value: nothing, or a character no number contains. */
  predicate Delimited(s: string) {
    s == "" || !NumberChar(s[0])
  }

  lemma {:induction false} DigitsInjective(a: nat, b: nat)
    requires Digits(a) == Digits(b)
    ensures a == b
  {
    var x, y := Digits(a), Digits(b);
    assert x[|x| - 1] == Digit(a % 10) && y[|y| - 1] == Digit(b % 10);
    if a >= 10 && b >= 10 {
      assert Digits(a / 10) == x[..|x| - 1] && Digits(b / 10) == y[..|y| - 1];
      DigitsInjective(a / 10, b / 10);
    }
  }

  lemma IntTextInjective(a: int, b: int)
    requires IntText(a) == IntText(b)
    ensures a == b
  {
    IntTextSign(a);
    IntTextSign(b);
    if a < 0 {
      assert Digits(-a) == IntText(a)[1..] && Digits(-b) == IntText(b)[1..];
      DigitsInjective(-a, -b);
    } else {
      DigitsInjective(a, b);
    }
  }

  lemma IntTextSign(a: int)
    ensures a < 0 <==> IntText(a)[0] == '-'
  {
    if a >= 0 { assert Digits(a)[0] in Digits(a); }
  }

  lemma NumberPrefix(x: string, y: string, s: string, t: string)
    requires forall c | c in x :: NumberChar(c)
    requires forall c | c in y :: NumberChar(c)
    requires Delimited(s) && Delimited(t)
    requires x + s == y + t
    ensures x == y && s == t
  {
    var w := x + s;
    assert forall i | 0 <= i < |x| :: w[i] == x[i] && NumberChar(w[i]);
    assert forall i | 0 <= i < |y| :: w[i] == y[i] && NumberChar(w[i]);
    assert |x| < |w| ==> w[|x|] == s[0];
    assert |y| < |w| ==> w[|y|] == t[0];
    assert |x| == |y|;
    Cut(x, s, y, t);
  }

  lemma Cut(x: string, s: string, y: string, t: string)
    requires x + s == y + t && |x| == |y|
    ensures x == y && s == t
  {
    assert x == (x + s)[..|x|] && y == (y + t)[..|x|];
    assert s == (x + s)[|x|..] && t == (y + t)[|x|..];
  }

  lemma EscapePrefix(c: char, d: char, s: string, t: string)
    requires Escape(c) + s == Escape(d) + t
    ensures c == d && s == t
  {
    var x, y := Escape(c), Escape(d);
    assert (x + s)[0] == x[0] && (y + t)[0] == y[0];
    if |x| >= 2 && |y| >= 2 {
      assert (x + s)[1] == x[1] && (y + t)[1] == y[1];
    }
    if |x| == 6 && |y| == 6 {
      assert (x + s)[4] == x[4] && (y + t)[4] == y[4] && (x + s)[5] == x[5] && (y + t)[5] == y[5];
    }
    assert |x| == |y|;
    Cut(x, s, y, t);
  }

  /** The rest of a string literal after its opening quote, and what follows it. */
  function Literal(a: string, s: string): string {
    EscapeAll(a) + "\"" + s
  }

  lemma LiteralUnfolds(a: string, s: string)
    ensures a == "" ==> Literal(a, s) == "\"" + s
    ensures a != "" ==> Literal(a, s) == Escape(a[0]) + Literal(a[1..], s)
    ensures Literal(a, s) != "" && (Literal(a, s)[0] == '"' <==> a == "")
  {
  }

  lemma {:induction false} QuotedPrefix(a: string, b: string, s: string, t: string)
    requires Literal(a, s) == Literal(b, t)
    ensures a == b && s == t
  {
    LiteralUnfolds(a, s);
    LiteralUnfolds(b, t);
    if a == "" {
      Cut("\"", s, "\"", t);
    } else {
      EscapePrefix(a[0], b[0], Literal(a[1..], s), Literal(b[1..], t));
      QuotedPrefix(a[1..], b[1..], s, t);
    }
  }

  /** The first character of a value's text says which kind of value it is. */
  function Lead(j: Json): char
    requires WellFormed(j)
  {
    match j
    case Null => 'n'
    case Bool(b) => if b then 't' else 'f'
    case Int(_) => '0'
    case Float(_) => '0'
    case Str(_) => '"'
    case Arr(_) => '['
    case Obj(_) => '{'
  }

  function Kind(c: char): char {
    if NumberChar(c) then '0' else c
  }

  lemma LeadCorrect(j: Json)
    requires WellFormed(j)
    ensures Encode(j) != "" && Kind(Encode(j)[0]) == Lead(j)
  {
    var e := Encode(j);
    match j
    case Int(n) => assert IntegerChar(e[0]);
    case Float(token) => assert e[0] in token;
    case _ =>
  }

  /** A list of parts, what closes it and what follows, as the reader meets it after the opening bracket. */
  function Closed(parts: seq<string>, close: string, s: string): string {
    Join(parts) + close + s
  }

  /** What follows the first part of a list. */
  function After(parts: seq<string>, close: string, s: string): string
    requires parts != []
  {
    if |parts| == 1 then close + s else "," + Closed(parts[1..], close, s)
  }

  lemma ClosedUnfolds(parts: seq<string>, close: string, s: string)
    requires |close| == 1
    ensures parts == [] ==> Closed(parts, close, s) == close + s
    ensures parts != [] ==> Closed(parts, close, s) == parts[0] + After(parts, close, s)
    ensures parts != [] ==> After(parts, close, s)[0] == if |parts| == 1 then close[0] else ','
  {
  }

  lemma AfterAgrees(p: seq<string>, q: seq<string>, close: string, s: string, t: string)
    requires p != [] && q != [] && |close| == 1 && close != ","
    requires After(p, close, s) == After(q, close, t)
    ensures |p| == 1 <==> |q| == 1
    ensures |p| == 1 ==> s == t
    ensures |p| > 1 ==> Closed(p[1..], close, s) == Closed(q[1..], close, t)
  {
    ClosedUnfolds(p, close, s);
    ClosedUnfolds(q, close, t);
    assert close[0] != ',';
    if |p| == 1 {
      Cut(close, s, close, t);
    } else {
      Cut(",", Closed(p[1..], close, s), ",", Closed(q[1..], close, t));
    }
  }

  /** No encoded value is a proper prefix of another: the text determines the value and where it ends. */
  lemma {:induction false} EncodePrefix(a: Json, b: Json, s: string, t: string)
    requires WellFormed(a) && WellFormed(b)
    requires Delimited(s) && Delimited(t)
    requires Encode(a) + s == Encode(b) + t
    ensures a == b && s == t
    decreases a, 1
  {
    SameLead(a, b, s, t);
    match a
    case Null => Cut("null", s, "null", t);
    case Bool(_) => Cut(Encode(a), s, Encode(b), t);
    case Int(n) => NumbersUnique(a, b, s, t);
    case Float(token) => NumbersUnique(a, b, s, t);
    case Str(v) => StringsUnique(v, b.s, s, t);
    case Arr(items) =>
      ArraysOpen(items, b.items, s, t);
      ItemsPrefix(items, b.items, s, t);
    case Obj(fields) =>
      var ks, ls := Ascending(fields.Keys), Ascending(b.fields.Keys);
      ObjectsOpen(a, ks, b, ls, s, t);
      MembersPrefix(a, ks, b, ls, s, t);
      SameFields(fields, b.fields, ks);
  }

  lemma SameLead(a: Json, b: Json, s: string, t: string)
    requires WellFormed(a) && WellFormed(b)
    requires Encode(a) + s == Encode(b) + t
    ensures Lead(a) == Lead(b)
  {
    LeadCorrect(a);
    LeadCorrect(b);
    var x, y := Encode(a), Encode(b);
    assert (x + s)[0] == x[0] && (y + t)[0] == y[0];
  }

  lemma SameFields(f: map<string, Json>, g: map<string, Json>, keys: seq<string>)
    requires forall k :: k in keys <==> k in f
    requires forall k :: k in keys <==> k in g
    requires forall k | k in keys :: f[k] == g[k]
    ensures f == g
  {
  }

  lemma ArraysOpen(xs: seq<Json>, ys: seq<Json>, s: string, t: string)
    requires Encode(Arr(xs)) + s == Encode(Arr(ys)) + t
    ensures Closed(Items(xs), "]", s) == Closed(Items(ys), "]", t)
  {
    assert Encode(Arr(xs)) + s == "[" + Closed(Items(xs), "]", s);
    assert Encode(Arr(ys)) + t == "[" + Closed(Items(ys), "]", t);
    Cut("[", Closed(Items(xs), "]", s), "[", Closed(Items(ys), "]", t));
  }

  lemma ObjectOpens(j: Json, ks: seq<string>, s: string)
    requires j.Obj? && ks == Ascending(j.fields.Keys)
    ensures Encode(j) + s == "{" + Closed(Members(j, ks), "}", s)
  {
  }

  lemma ObjectsOpen(a: Json, ks: seq<string>, b: Json, ls: seq<string>, s: string, t: string)
    requires a.Obj? && ks == Ascending(a.fields.Keys)
    requires b.Obj? && ls == Ascending(b.fields.Keys)
    requires Encode(a) + s == Encode(b) + t
    ensures Closed(Members(a, ks), "}", s) == Closed(Members(b, ls), "}", t)
  {
    ObjectOpens(a, ks, s);
    ObjectOpens(b, ls, t);
    Cut("{", Closed(Members(a, ks), "}", s), "{", Closed(Members(b, ls), "}", t));
  }

  lemma QuotedOpens(v: string, s: string)
    ensures Quoted(v) + s == "\"" + Literal(v, s)
  {
  }

  lemma StringsUnique(v: string, w: string, s: string, t: string)
    requires Quoted(v) + s == Quoted(w) + t
    ensures v == w && s == t
  {
    QuotedOpens(v, s);
    QuotedOpens(w, t);
    Cut("\"", Literal(v, s), "\"", Literal(w, t));
    QuotedPrefix(v, w, s, t);
  }

  lemma NumbersUnique(a: Json, b: Json, s: string, t: string)
    requires WellFormed(a) && WellFormed(b) && (a.Int? || a.Float?) && (b.Int? || b.Float?)
    requires Delimited(s) && Delimited(t)
    requires Encode(a) + s == Encode(b) + t
    ensures a == b && s == t
  {
    NumberPrefix(Encode(a), Encode(b), s, t);
    if a.Int? && b.Int? { IntTextInjective(a.n, b.n); }
  }

  /** The text after `[`: its first character tells an empty array from the others. */
  lemma ItemsOpen(xs: seq<Json>, s: string)
    requires forall x | x in xs :: WellFormed(x)
    ensures Closed(Items(xs), "]", s) != "" && (Closed(Items(xs), "]", s)[0] == ']' <==> xs == [])
    ensures xs == [] ==> Closed(Items(xs), "]", s) == "]" + s
    ensures xs != [] ==>
      && Closed(Items(xs), "]", s) == Encode(xs[0]) + After(Items(xs), "]", s)
      && Items(xs)[1..] == Items(xs[1..])
      && Delimited(After(Items(xs), "]", s))
  {
    ClosedUnfolds(Items(xs), "]", s);
    if xs != [] { LeadCorrect(xs[0]); }
  }

  lemma {:induction false} ItemsPrefix(xs: seq<Json>, ys: seq<Json>, s: string, t: string)
    requires forall x | x in xs :: WellFormed(x)
    requires forall y | y in ys :: WellFormed(y)
    requires Closed(Items(xs), "]", s) == Closed(Items(ys), "]", t)
    ensures xs == ys && s == t
    decreases xs, 2
  {
    ItemsOpen(xs, s);
    ItemsOpen(ys, t);
    if xs == [] {
      Cut("]", s, "]", t);
    } else {
      EncodePrefix(xs[0], ys[0], After(Items(xs), "]", s), After(Items(ys), "]", t));
      ItemsRest(xs, ys, s, t);
      if |xs| > 1 {
        ItemsPrefix(xs[1..], ys[1..], s, t);
      }
      Prepend(xs, ys);
    }
  }

  lemma Prepend<T>(xs: seq<T>, ys: seq<T>)
    requires xs != [] && ys != [] && xs[0] == ys[0] && xs[1..] == ys[1..]
    ensures xs == ys
  {
    assert xs == [xs[0]] + xs[1..] && ys == [ys[0]] + ys[1..];
  }

  lemma ItemsRest(xs: seq<Json>, ys: seq<Json>, s: string, t: string)
    requires xs != [] && ys != []
    requires After(Items(xs), "]", s) == After(Items(ys), "]", t)
    ensures |xs| == 1 <==> |ys| == 1
    ensures |xs| == 1 ==> s == t && xs[1..] == ys[1..]
    ensures |xs| > 1 ==> Closed(Items(xs[1..]), "]", s) == Closed(Items(ys[1..]), "]", t)
  {
    AfterAgrees(Items(xs), Items(ys), "]", s, t);
  }

  /** The text after `{`, in the same way. */
  lemma MembersOpen(j: Json, ks: seq<string>, s: string)
    requires j.Obj? && forall k | k in ks :: k in j.fields
    ensures Closed(Members(j, ks), "}", s) != "" && (Closed(Members(j, ks), "}", s)[0] == '}' <==> ks == [])
    ensures ks == [] ==> Closed(Members(j, ks), "}", s) == "}" + s
    ensures ks != [] ==>
      && Closed(Members(j, ks), "}", s) == Member(ks[0], Encode(j.fields[ks[0]])) + After(Members(j, ks), "}", s)
      && Delimited(After(Members(j, ks), "}", s))
  {
    ClosedUnfolds(Members(j, ks), "}", s);
  }

  lemma {:induction false} MembersPrefix(a: Json, ks: seq<string>, b: Json, ls: seq<string>, s: string, t: string)
    requires a.Obj? && WellFormed(a) && forall k | k in ks :: k in a.fields
    requires b.Obj? && WellFormed(b) && forall k | k in ls :: k in b.fields
    requires Closed(Members(a, ks), "}", s) == Closed(Members(b, ls), "}", t)
    ensures ks == ls && s == t && forall k | k in ks :: a.fields[k] == b.fields[k]
    decreases a, 0, |ks|
  {
    MembersOpen(a, ks, s);
    MembersOpen(b, ls, t);
    if ks == [] {
      Cut("}", s, "}", t);
    } else {
      var restA, restB := After(Members(a, ks), "}", s), After(Members(b, ls), "}", t);
      MemberPrefix(ks[0], a.fields[ks[0]], restA, ls[0], b.fields[ls[0]], restB);
      EncodePrefix(a.fields[ks[0]], b.fields[ls[0]], restA, restB);
      MembersRest(a, ks, b, ls, s, t);
      if |ks| > 1 {
        MembersPrefix(a, ks[1..], b, ls[1..], s, t);
      }
      Prepend(ks, ls);
    }
  }

  lemma MembersRest(a: Json, ks: seq<string>, b: Json, ls: seq<string>, s: string, t: string)
    requires a.Obj? && forall k | k in ks :: k in a.fields
    requires b.Obj? && forall k | k in ls :: k in b.fields
    requires ks != [] && ls != []
    requires After(Members(a, ks), "}", s) == After(Members(b, ls), "}", t)
    ensures |ks| == 1 <==> |ls| == 1
    ensures |ks| == 1 ==> s == t && ks[1..] == ls[1..]
    ensures |ks| > 1 ==> Closed(Members(a, ks[1..]), "}", s) == Closed(Members(b, ls[1..]), "}", t)
  {
    AfterAgrees(Members(a, ks), Members(b, ls), "}", s, t);
  }

  lemma MemberOpens(key: string, text: string, rest: string)
    ensures Member(key, text) + rest == Quoted(key) + (":" + (text + rest))
  {
  }

  lemma MemberPrefix(k: string, x: Json, restX: string, l: string, y: Json, restY: string)
    requires Member(k, Encode(x)) + restX == Member(l, Encode(y)) + restY
    ensures k == l && Encode(x) + restX == Encode(y) + restY
  {
    MemberOpens(k, Encode(x), restX);
    MemberOpens(l, Encode(y), restY);
    StringsUnique(k, l, ":" + (Encode(x) + restX), ":" + (Encode(y) + restY));
    Cut(":", Encode(x) + restX, ":", Encode(y) + restY);
  }

  /** Equal canonical text means equal value: an encoding can stand for the value it encodes. */
  lemma EncodeInjective(a: Json, b: Json)
    requires WellFormed(a) && WellFormed(b)
    ensures Encode(a) == Encode(b) <==> a == b
  {
    if Encode(a) == Encode(b) {
      assert Encode(a) + "" == Encode(b) + "";
      EncodePrefix(a, b, "", "");
    }
  }
}
