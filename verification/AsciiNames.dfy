/** The other encoder of the pipeline: it escapes every character that is not printable ASCII. Text it
    writes agrees with the canonical encoder's exactly on names of printable ASCII and controls. */
module AsciiNames {
  import opened CanonicalJson

  /** Both encoders write these characters alike. */
  predicate Shared(c: char) {
    (c as int) < 127
  }

  predicate IsAscii(s: string) {
    forall c | c in s :: Shared(c)
  }

  /** A `\u` escape of a 16-bit unit. */
  function Unit(n: nat): (r: string)
    requires n < 0x10000
    ensures |r| == 6
  {
    "\\u" + [HexDigit(n / 4096), HexDigit(n / 256 % 16), HexDigit(n / 16 % 16), HexDigit(n % 16)]
  }

  /** Characters beyond the first plane become a surrogate pair. */
  function AsciiEscape(c: char): string {
    var n := c as int;
    if n < 127 then Escape(c)
    else if n < 0x10000 then Unit(n)
    else Unit(0xD800 + (n - 0x10000) / 0x400) + Unit(0xDC00 + (n - 0x10000) % 0x400)
  }

  function AsciiEscapeAll(s: string): string {
    if s == "" then "" else AsciiEscape(s[0]) + AsciiEscapeAll(s[1..])
  }

  function AsciiQuoted(s: string): string {
    "\"" + AsciiEscapeAll(s) + "\""
  }

  lemma {:induction false} SharedAlike(s: string)
    requires IsAscii(s)
    ensures AsciiEscapeAll(s) == EscapeAll(s)
  {
    if s != "" {
      assert Shared(s[0]);
      SharedAlike(s[1..]);
    }
  }

  lemma HexIsZero(d: nat)
    requires d < 16
    ensures (HexDigit(d) == '0' <==> d == 0) && (HexDigit(d) == '1' <==> d == 1)
  {
  }

  /** The canonical encoder never writes a `\u` escape of 32 or more. */
  lemma UnitIsNoEscape(n: nat, rest: string, d: char, t: string)
    requires 32 <= n < 0x10000
    ensures Unit(n) + rest != Escape(d) + t
  {
    var x, y := Unit(n) + rest, Escape(d) + t;
    if x == y {
      assert x[0] == '\\' && x[1] == 'u';
      assert y[0] == Escape(d)[0];
      assert |Escape(d)| > 1 ==> y[1] == Escape(d)[1];
      assert (d as int) < 32 && |Escape(d)| == 6;
      assert y[2] == '0' && y[3] == '0' && y[4] == HexDigit(d as int / 16);
      HexIsZero(n / 4096);
      HexIsZero(n / 256 % 16);
      HexIsZero(n / 16 % 16);
      HexIsZero(d as int / 16);
      assert false;
    }
  }

  lemma AsciiEscapePrefix(c: char, d: char, s: string, t: string)
    requires AsciiEscape(c) + s == Escape(d) + t
    ensures c == d && Shared(c) && s == t
  {
    var n := c as int;
    if n < 127 {
      EscapePrefix(c, d, s, t);
    } else if n < 0x10000 {
      UnitIsNoEscape(n, s, d, t);
    } else {
      var high, low := Unit(0xD800 + (n - 0x10000) / 0x400), Unit(0xDC00 + (n - 0x10000) % 0x400);
      assert (high + low) + s == high + (low + s);
      UnitIsNoEscape(0xD800 + (n - 0x10000) / 0x400, low + s, d, t);
    }
  }

  /** The rest of such a literal after its opening quote, and what follows it. */
  function AsciiLiteral(a: string, s: string): string {
    AsciiEscapeAll(a) + "\"" + s
  }

  lemma AsciiLiteralUnfolds(a: string, s: string)
    ensures a == "" ==> AsciiLiteral(a, s) == "\"" + s
    ensures a != "" ==> AsciiLiteral(a, s) == AsciiEscape(a[0]) + AsciiLiteral(a[1..], s)
    ensures AsciiLiteral(a, s) != "" && (AsciiLiteral(a, s)[0] == '"' <==> a == "")
  {
  }

  /** One encoder's name can only be read as the other's if it is the same name and both write it alike. */
  lemma {:induction false} AsciiQuotedPrefix(a: string, b: string, s: string, t: string)
    requires AsciiLiteral(a, s) == Literal(b, t)
    ensures a == b && IsAscii(a) && s == t
  {
    AsciiLiteralUnfolds(a, s);
    LiteralUnfolds(b, t);
    if a == "" {
      Cut("\"", s, "\"", t);
    } else {
      AsciiEscapePrefix(a[0], b[0], AsciiLiteral(a[1..], s), Literal(b[1..], t));
      AsciiQuotedPrefix(a[1..], b[1..], s, t);
      assert a == [a[0]] + a[1..] && b == [b[0]] + b[1..];
    }
  }

  lemma AsciiStringsUnique(v: string, w: string, s: string, t: string)
    requires AsciiQuoted(v) + s == Quoted(w) + t
    ensures v == w && IsAscii(v) && s == t
  {
    assert AsciiQuoted(v) + s == "\"" + AsciiLiteral(v, s);
    QuotedOpens(w, t);
    Cut("\"", AsciiLiteral(v, s), "\"", Literal(w, t));
    AsciiQuotedPrefix(v, w, s, t);
  }

  // ---------------------------------------------------------------- object members with such names

  function AsciiMember(key: string, text: string): string {
    AsciiQuoted(key) + ":" + text
  }

  function AsciiMembers(j: Json, keys: seq<string>): (r: seq<string>)
    requires j.Obj? && forall k | k in keys :: k in j.fields
    ensures |r| == |keys|
  {
    if keys == [] then [] else [AsciiMember(keys[0], Encode(j.fields[keys[0]]))] + AsciiMembers(j, keys[1..])
  }

  lemma {:induction false} SharedMembers(j: Json, keys: seq<string>)
    requires j.Obj? && forall k | k in keys :: k in j.fields && IsAscii(k)
    ensures AsciiMembers(j, keys) == Members(j, keys)
  {
    if keys != [] {
      SharedAlike(keys[0]);
      SharedMembers(j, keys[1..]);
    }
  }

  lemma AsciiMembersOpen(j: Json, ks: seq<string>, s: string)
    requires j.Obj? && forall k | k in ks :: k in j.fields
    ensures Closed(AsciiMembers(j, ks), "}", s) != "" && (Closed(AsciiMembers(j, ks), "}", s)[0] == '}' <==> ks == [])
    ensures ks == [] ==> Closed(AsciiMembers(j, ks), "}", s) == "}" + s
    ensures ks != [] ==>
      && Closed(AsciiMembers(j, ks), "}", s) ==
         AsciiMember(ks[0], Encode(j.fields[ks[0]])) + After(AsciiMembers(j, ks), "}", s)
      && Delimited(After(AsciiMembers(j, ks), "}", s))
  {
    ClosedUnfolds(AsciiMembers(j, ks), "}", s);
  }

  lemma AsciiMemberOpens(key: string, text: string, rest: string)
    ensures AsciiMember(key, text) + rest == AsciiQuoted(key) + (":" + (text + rest))
  {
  }

  lemma AsciiMemberPrefix(k: string, x: Json, restX: string, l: string, y: Json, restY: string)
    requires AsciiMember(k, Encode(x)) + restX == Member(l, Encode(y)) + restY
    ensures k == l && IsAscii(k) && Encode(x) + restX == Encode(y) + restY
  {
    AsciiMemberOpens(k, Encode(x), restX);
    MemberOpens(l, Encode(y), restY);
    AsciiStringsUnique(k, l, ":" + (Encode(x) + restX), ":" + (Encode(y) + restY));
    Cut(":", Encode(x) + restX, ":", Encode(y) + restY);
  }

  /** Members written with escaped names read as canonical members only if they are the same members, in the
      same order, under names both encoders write alike. */
  lemma {:induction false} AsciiMembersPrefix(a: Json, ks: seq<string>, b: Json, ls: seq<string>, s: string, t: string)
    requires a.Obj? && WellFormed(a) && forall k | k in ks :: k in a.fields
    requires b.Obj? && WellFormed(b) && forall k | k in ls :: k in b.fields
    requires Closed(AsciiMembers(a, ks), "}", s) == Closed(Members(b, ls), "}", t)
    ensures ks == ls && s == t && forall k | k in ks :: IsAscii(k) && a.fields[k] == b.fields[k]
    decreases |ks|
  {
    AsciiMembersOpen(a, ks, s);
    MembersOpen(b, ls, t);
    if ks == [] {
      Cut("}", s, "}", t);
    } else {
      var restA, restB := After(AsciiMembers(a, ks), "}", s), After(Members(b, ls), "}", t);
      AsciiMemberPrefix(ks[0], a.fields[ks[0]], restA, ls[0], b.fields[ls[0]], restB);
      EncodePrefix(a.fields[ks[0]], b.fields[ls[0]], restA, restB);
      AfterAgrees(AsciiMembers(a, ks), Members(b, ls), "}", s, t);
      if |ks| > 1 {
        AsciiMembersPrefix(a, ks[1..], b, ls[1..], s, t);
      }
      Prepend(ks, ls);
      assert forall k | k in ks :: k == ks[0] || k in ks[1..];
    }
  }
}
