/**
 * The fragment of JavaScript semantics the waitlist handler relies on:
 * values produced by `JSON.parse`, truthiness, property reads, the
 * whitespace set shared by the regular-expression class `\s` and
 * `String.prototype.trim`, and lower-casing (ASCII letters only).
 */
module Js {
  import opened Outcomes

  /** A value produced by `JSON.parse`. */
  datatype Json =
    | JNull
    | JBool(b: bool)
    | JNumber(n: real)
    | JString(s: string)
    | JArray(items: seq<Json>)
    | JObject(fields: map<string, Json>)

  /**
   * JavaScript truthiness of a value that may be `undefined` (None).
   * `undefined`, `null`, `false`, `0` and `""` are falsy; JSON cannot
   * produce `NaN`.
   */
  predicate Truthy(v: Option<Json>) {
    match v
    case None => false
    case Some(JNull) => false
    case Some(JBool(b)) => b
    case Some(JNumber(n)) => n != 0.0
    case Some(JString(s)) => s != ""
    case Some(_) => true
  }

  /** `typeof v === 'string'`. */
  predicate IsString(v: Option<Json>) {
    v.Some? && v.value.JString?
  }

  /**
   * Reading property `name` of a JSON value. Reading a property of `null`
   * throws a TypeError; a primitive or an array has no own property of the
   * names the handler reads, so the read yields `undefined`. Names that a
   * prototype defines (`length`, `constructor`) would answer differently,
   * so only the two names the handler reads are allowed.
   */
  function Prop(v: Json, name: string): (r: Eval<Option<Json>>)
    requires name == "email" || name == "droneType"
    ensures r.Throws? <==> v.JNull?
    ensures r.Returns? && r.value.Some? ==> v.JObject? && name in v.fields && v.fields[name] == r.value.value
    ensures v.JObject? && name in v.fields ==> r == Returns(Some(v.fields[name]))
  {
    match v
    case JNull => Throws
    case JObject(m) => Returns(if name in m then Some(m[name]) else None)
    case _ => Returns(None)
  }

  /**
   * The ECMAScript WhiteSpace and LineTerminator code points: exactly the
   * characters matched by `\s` and removed by `trim`.
   */
  predicate IsWhitespace(c: char) {
    if c < '\U{0080}' then
      c == ' ' || ('\t' <= c <= '\r') // TAB, LF, VT, FF, CR and SPACE
    else
      || c == '\U{00A0}' || c == '\U{1680}' || ('\U{2000}' <= c <= '\U{200A}')
      || c == '\U{2028}' || c == '\U{2029}' || c == '\U{202F}' || c == '\U{205F}'
      || c == '\U{3000}' || c == '\U{FEFF}'
  }

  predicate HasNoWhitespace(s: string) {
    forall k :: 0 <= k < |s| ==> !IsWhitespace(s[k])
  }

  /** Removes the longest whitespace prefix. */
  function TrimStart(s: string): (r: string)
    ensures |r| <= |s| && r == s[|s| - |r|..]
    ensures forall k :: 0 <= k < |s| - |r| ==> IsWhitespace(s[k])
    ensures r == [] || !IsWhitespace(r[0])
  {
    if s != [] && IsWhitespace(s[0]) then TrimStart(s[1..]) else s
  }

  /** Removes the longest whitespace suffix. */
  function TrimEnd(s: string): (r: string)
    ensures |r| <= |s| && r == s[..|r|]
    ensures forall k :: |r| <= k < |s| ==> IsWhitespace(s[k])
    ensures r == [] || !IsWhitespace(r[|r| - 1])
  {
    if s != [] && IsWhitespace(s[|s| - 1]) then TrimEnd(s[..|s| - 1]) else s
  }

  /**
   * `String.prototype.trim`: the result is a contiguous piece of `s` that
   * neither starts nor ends with whitespace, and everything cut away is
   * whitespace.
   */
  function Trim(s: string): (r: string)
    ensures |r| <= |s|
    ensures exists i :: TrimmedAt(s, r, i)
    ensures r == [] || (!IsWhitespace(r[0]) && !IsWhitespace(r[|r| - 1]))
    ensures r == [] <==> forall k :: 0 <= k < |s| ==> IsWhitespace(s[k])
  {
    var front := TrimStart(s);
    var r := TrimEnd(front);
    TrimBothEnds(s, front, r);
    r
  }

  lemma TrimBothEnds(s: string, front: string, r: string)
    requires |front| <= |s| && front == s[|s| - |front|..]
    requires forall k :: 0 <= k < |s| - |front| ==> IsWhitespace(s[k])
    requires front == [] || !IsWhitespace(front[0])
    requires |r| <= |front| && r == front[..|r|]
    requires forall k :: |r| <= k < |front| ==> IsWhitespace(front[k])
    ensures TrimmedAt(s, r, |s| - |front|)
    ensures r == [] <==> forall k :: 0 <= k < |s| ==> IsWhitespace(s[k])
  {
    var i := |s| - |front|;
    forall k | i <= k < |s| ensures s[k] == front[k - i] {
    }
    var piece := s[i..i + |r|];
    forall m | 0 <= m < |r| ensures piece[m] == r[m] {
      assert r[m] == front[m];
    }
    assert piece == r;
  }

  /** `r` is `s` with a whitespace prefix of length `i` and a whitespace suffix cut away. */
  predicate TrimmedAt(s: string, r: string, i: int) {
    && 0 <= i <= |s| - |r|
    && r == s[i..i + |r|]
    && (forall k :: 0 <= k < i ==> IsWhitespace(s[k]))
    && (forall k :: i + |r| <= k < |s| ==> IsWhitespace(s[k]))
  }

  /** Trimming leaves a string without whitespace unchanged. */
  lemma {:induction false} TrimWithoutWhitespace(s: string)
    ensures HasNoWhitespace(s) ==> Trim(s) == s
  {
    if s != [] && HasNoWhitespace(s) {
      assert !IsWhitespace(s[0]);
      assert TrimStart(s) == s;
      assert !IsWhitespace(s[|s| - 1]);
      assert TrimEnd(s) == s;
    }
  }

  /** Trimming twice is trimming once. */
  lemma TrimIdempotent(s: string)
    ensures Trim(Trim(s)) == Trim(s)
  {
    var t := Trim(s);
    if t != [] {
      assert TrimStart(t) == t;
      assert TrimEnd(t) == t;
    }
  }

  /** ASCII lower-casing of one character. */
  function LowerChar(c: char): (d: char)
    ensures 'A' <= c <= 'Z' ==> 'a' <= d <= 'z' && d as int - c as int == 32
    ensures !('A' <= c <= 'Z') ==> d == c
  {
    if 'A' <= c <= 'Z' then (c as int + 32) as char else c
  }

  /** `String.prototype.toLowerCase` restricted to ASCII letters. */
  function ToLowerAscii(s: string): (r: string)
    ensures |r| == |s|
    ensures forall k :: 0 <= k < |s| ==> r[k] == LowerChar(s[k])
    ensures forall k :: 0 <= k < |r| ==> !('A' <= r[k] <= 'Z')
  {
    seq(|s|, k requires 0 <= k < |s| => LowerChar(s[k]))
  }

  /** Lower-casing changes no whitespace, '@' or '.' and is idempotent. */
  lemma LowerKeepsStructure(s: string)
    ensures forall k :: 0 <= k < |s| ==> (IsWhitespace(ToLowerAscii(s)[k]) <==> IsWhitespace(s[k]))
    ensures forall k :: 0 <= k < |s| ==> (ToLowerAscii(s)[k] == '@' <==> s[k] == '@')
    ensures forall k :: 0 <= k < |s| ==> (ToLowerAscii(s)[k] == '.' <==> s[k] == '.')
    ensures ToLowerAscii(ToLowerAscii(s)) == ToLowerAscii(s)
  {
  }
}
