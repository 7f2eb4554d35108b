/** Variable names as `WRITE_VAR` and `READ_VAR` spell them: a token such as
    `'Counter_1'`, single-quoted, whose body starts with a letter or `_` and
    continues with letters, digits and `_`. The loader keeps the body only,
    lowercased, so two spellings that differ in case name one variable. */
module Identifier {
  import opened Wrappers

  /** Why `valid_variable` rejected a token, one constructor per check, in
      the order the checks are made. */
  datatype VariableError =
    | TooShort      // fewer than 3 bytes
    | NotAscii      // some character outside ASCII
    | BadQuotes     // first or last character is not `'`
    | BadFirstChar  // body starts with something other than a letter or `_`
    | BadChar       // body holds something other than a letter, digit or `_`

  /** Bytes taken by `c` in UTF-8, the encoding of a Rust `String`. */
  function Utf8Width(c: char): nat {
    if c as int < 0x80 then 1
    else if c as int < 0x800 then 2
    else if c as int < 0x1_0000 then 3
    else 4
  }

  /** `String::len`: the length in bytes, not in characters. */
  function Utf8Length(s: string): nat {
    if |s| == 0 then 0 else Utf8Length(s[..|s| - 1]) + Utf8Width(s[|s| - 1])
  }

  predicate IsAscii(s: string) {
    forall i :: 0 <= i < |s| ==> s[i] as int < 0x80
  }

  /** A string takes at least one byte per character, and exactly one when
      it is ASCII. */
  lemma {:induction false} Utf8LengthBounds(s: string)
    ensures |s| <= Utf8Length(s)
    ensures IsAscii(s) ==> Utf8Length(s) == |s|
  {
    if |s| > 0 {
      Utf8LengthBounds(s[..|s| - 1]);
    }
  }

  predicate IsAlpha(c: char) {
    'a' <= c <= 'z' || 'A' <= c <= 'Z'
  }

  predicate IsWordChar(c: char) {
    IsAlpha(c) || '0' <= c <= '9' || c == '_'
  }

  /** A well-formed variable body: a letter or `_`, then word characters. */
  predicate IsName(s: string) {
    && |s| > 0
    && (IsAlpha(s[0]) || s[0] == '_')
    && forall i :: 0 <= i < |s| ==> IsWordChar(s[i])
  }

  function ToLower(c: char): char {
    if 'A' <= c <= 'Z' then (c as int - 'A' as int + 'a' as int) as char else c
  }

  /** `make_ascii_lowercase`. */
  function Lower(s: string): (t: string)
    ensures |t| == |s|
    ensures forall i :: 0 <= i < |s| ==> t[i] == ToLower(s[i])
  {
    seq(|s|, i requires 0 <= i < |s| => ToLower(s[i]))
  }

  predicate IsLowerName(s: string) {
    IsName(s) && Lower(s) == s
  }

  function Quote(name: string): string {
    "'" + name + "'"
  }

  /** The tokens `valid_variable` accepts: a well-formed name between quotes. */
  predicate IsQuotedName(token: string) {
    && |token| >= 2
    && token[0] == '\''
    && token[|token| - 1] == '\''
    && IsName(token[1..|token| - 1])
  }

  /** `valid_variable`: check the byte length, then ASCII, then the quotes,
      then the first body character, then every body character; on success
      the body, lowercased. */
  function ValidVariable(token: string): (r: Result<string, VariableError>)
    ensures r.Ok? <==> IsQuotedName(token)
    ensures r.Ok? ==> IsLowerName(r.value) && r.value == Lower(token[1..|token| - 1])
    ensures r == Err(TooShort) <==> Utf8Length(token) < 3
    ensures r == Err(NotAscii) <==> Utf8Length(token) >= 3 && !IsAscii(token)
  {
    Utf8LengthBounds(token);
    if Utf8Length(token) < 3 then Err(TooShort)
    else if !IsAscii(token) then Err(NotAscii)
    else
      var body := token[1..|token| - 1];
      if token[0] != '\'' || token[|token| - 1] != '\'' then Err(BadQuotes)
      else if !(IsAlpha(body[0]) || body[0] == '_') then Err(BadFirstChar)
      else if !(forall i :: 0 <= i < |body| ==> IsWordChar(body[i])) then Err(BadChar)
      else
        LowerName(body);
        Ok(Lower(body))
  }

  /** Lowercasing keeps a name well formed and is idempotent. */
  lemma LowerName(s: string)
    requires IsName(s)
    ensures IsLowerName(Lower(s))
  {
    var t := Lower(s);
    assert forall i :: 0 <= i < |s| ==> IsWordChar(t[i]) by {
      forall i | 0 <= i < |s| ensures IsWordChar(t[i]) {
        assert IsWordChar(s[i]);
      }
    }
    assert Lower(t) == t;
  }

  /** Quoting a name and validating it yields the name, lowercased. */
  lemma ValidQuote(name: string)
    requires IsName(name)
    ensures ValidVariable(Quote(name)) == Ok(Lower(name))
  {
    var token := Quote(name);
    assert token[1..|token| - 1] == name;
    assert IsQuotedName(token);
  }

  /** A name the loader stored, quoted again, loads to itself: normalisation
      is a fixed point. */
  lemma ValidVariableCanonical(token: string)
    requires ValidVariable(token).Ok?
    ensures ValidVariable(Quote(ValidVariable(token).value)) == ValidVariable(token)
  {
    var r := ValidVariable(token).value;
    ValidQuote(r);
  }

  /** Spellings that differ only in letter case denote the same variable. */
  lemma CaseInsensitive(a: string, b: string)
    requires IsName(a) && IsName(b) && Lower(a) == Lower(b)
    ensures ValidVariable(Quote(a)) == ValidVariable(Quote(b))
  {
    ValidQuote(a);
    ValidQuote(b);
  }

  /** The byte-length check comes first: a one-character, two-byte token
      is too short rather than non-ASCII, while the same character quoted is
      non-ASCII. The length counts bytes: `éé` has two characters but four
      bytes, so it passes the length check and fails the ASCII check. */
  lemma LengthBeforeAscii()
    ensures ValidVariable("é") == Err(TooShort)
    ensures ValidVariable("'é'") == Err(NotAscii)
    ensures ValidVariable("xy") == Err(TooShort)
    ensures ValidVariable("éé") == Err(NotAscii)
  {
    assert Utf8Length("é") == 2;
    assert Utf8Length("éé") == 4;
  }

  /** After the length and ASCII checks come the quotes, then the first body
      character, then the other body characters: each check reports its
      error exactly when every earlier check passed and it fails. */
  lemma CheckOrder(t: string)
    ensures ValidVariable(t) == Err(BadQuotes) <==>
              IsAscii(t) && |t| >= 3 && (t[0] != '\'' || t[|t| - 1] != '\'')
    ensures ValidVariable(t) == Err(BadFirstChar) <==>
              && IsAscii(t) && |t| >= 3 && t[0] == '\'' && t[|t| - 1] == '\''
              && !(IsAlpha(t[1]) || t[1] == '_')
    ensures ValidVariable(t) == Err(BadChar) <==>
              && IsAscii(t) && |t| >= 3 && t[0] == '\'' && t[|t| - 1] == '\''
              && (IsAlpha(t[1]) || t[1] == '_')
              && exists i :: 1 <= i < |t| - 1 && !IsWordChar(t[i])
  {
    Utf8LengthBounds(t);
    if IsAscii(t) && |t| >= 3 && t[0] == '\'' && t[|t| - 1] == '\'' {
      var body := t[1..|t| - 1];
      assert body[0] == t[1];
      assert (forall i :: 0 <= i < |body| ==> IsWordChar(body[i])) <==>
             !(exists i :: 1 <= i < |t| - 1 && !IsWordChar(t[i])) by {
        forall i | 1 <= i < |t| - 1 ensures t[i] == body[i - 1] { }
      }
    }
  }

  /** The same order on examples; a good token yields its lowercased body. */
  lemma CheckOrderExamples()
    ensures ValidVariable("abc") == Err(BadQuotes)
    ensures ValidVariable("'1abc'") == Err(BadFirstChar)
    ensures ValidVariable("'a-b'") == Err(BadChar)
    ensures ValidVariable("'X1_'") == Ok("x1_")
  {
    Utf8LengthBounds("abc");
    Utf8LengthBounds("'1abc'");
    Utf8LengthBounds("'a-b'");
    assert "'1abc'"[1..5] == "1abc";
    assert "'a-b'"[1..4] == "a-b" && !IsWordChar("a-b"[1]);
    ValidQuote("X1_");
    assert Quote("X1_") == "'X1_'";
    var low := Lower("X1_");
    assert low[0] == 'x' && low[1] == '1' && low[2] == '_';
    assert low == "x1_";
  }
}
