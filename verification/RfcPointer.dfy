/**
 * JSON Pointer as RFC 6901 defines it, and exactly where the resolver of the
 * schema checks departs from it: it takes tildes that escape nothing, and at an
 * array every token that Python reads as an index, negative ones included.
 */
module RfcPointer {
  import opened Wrappers
  import opened Text
  import opened JsonPointer

  // ---- the standard ----

  /** The grammar of section 3: reference tokens, each after a slash. */
  predicate IsPointer(s: string) {
    s == "" || (s[0] == '/' && IsTokens(s[1..]))
  }

  /** The rest of a token and the tokens after it; a tilde must begin ~0 or ~1. */
  predicate IsTokens(s: string) {
    if s == "" then true
    else if s[0] != '~' then IsTokens(s[1..])
    else |s| > 1 && (s[1] == '0' || s[1] == '1') && IsTokens(s[2..])
  }

  /** An array index as section 4 writes it: no sign, no leading zero. */
  predicate IsIndex(s: string) {
    s != [] && (forall i | 0 <= i < |s| :: IsDigit(s[i])) && (|s| > 1 ==> s[0] != '0')
  }

  /** One decoded reference token, by section 4. */
  function Enter(node: Json, part: string): Option<Json> {
    match node
    case JObject(fields) => Get(fields, part)
    case JArray(items) => if IsIndex(part) && DigitsValue(part) < |items| then Some(items[DigitsValue(part)]) else None
    case _ => None
  }

  function EnterAll(node: Json, parts: seq<string>): Option<Json>
    decreases |parts|
  {
    if parts == [] then Some(node)
    else
      var next := Enter(node, Decode(parts[0]));
      if next.None? then None else EnterAll(next.value, parts[1..])
  }

  function Tokens(pointer: string): seq<string> {
    if pointer == "" then [] else Split(pointer[1..], '/')
  }

  /** None is an error, of syntax or of evaluation. */
  function Evaluate(doc: Json, pointer: string): Option<Json> {
    if IsPointer(pointer) then EnterAll(doc, Tokens(pointer)) else None
  }

  // ---- what a caller can see ----

  predicate WellEscaped(s: string) {
    forall i | 0 <= i < |s| && s[i] == '~' :: i + 1 < |s| && (s[i + 1] == '0' || s[i + 1] == '1')
  }

  lemma {:induction false} TokensExact(s: string)
    ensures IsTokens(s) <==> WellEscaped(s)
  {
    if s != "" {
      if s[0] != '~' {
        TokensExact(s[1..]);
        assert WellEscaped(s) <==> WellEscaped(s[1..]) by {
          WellEscapedFrom(s, 1);
        }
      } else if |s| > 1 && (s[1] == '0' || s[1] == '1') {
        TokensExact(s[2..]);
        WellEscapedFrom(s, 2);
      }
    }
  }

  lemma WellEscapedFrom(s: string, n: nat)
    requires n <= |s| && forall i | 0 <= i < n && s[i] == '~' :: i + 1 < |s| && (s[i + 1] == '0' || s[i + 1] == '1')
    ensures WellEscaped(s) <==> WellEscaped(s[n..])
  {
    var t := s[n..];
    assert forall i | 0 <= i < |t| :: t[i] == s[n + i];
    if WellEscaped(t) {
      forall i | n <= i < |s| && s[i] == '~'
        ensures i + 1 < |s| && (s[i + 1] == '0' || s[i + 1] == '1')
      {
        assert t[i - n] == '~';
        assert t[i - n + 1] == s[i + 1];
      }
    }
    if WellEscaped(s) {
      forall i | 0 <= i < |t| && t[i] == '~'
        ensures i + 1 < |t| && (t[i + 1] == '0' || t[i + 1] == '1')
      {
        assert s[n + i] == '~';
        assert t[i + 1] == s[n + i + 1];
      }
    }
  }

  /** Syntax in one look: it starts with a slash, if at all, and every tilde begins ~0 or ~1. */
  lemma PointerExact(s: string)
    ensures IsPointer(s) <==> (s == "" || s[0] == '/') && WellEscaped(s)
  {
    if s != "" && s[0] == '/' {
      TokensExact(s[1..]);
      WellEscapedFrom(s, 1);
    }
  }

  /** Every array that the tokens reach is given an index as the standard writes it. */
  predicate PlainIndices(node: Json, parts: seq<string>)
    decreases |parts|
  {
    parts != [] ==>
      var part := Decode(parts[0]);
      var next := Descend(node, part);
      (node.JArray? ==> IsIndex(part)) && (next.Some? ==> PlainIndices(next.value, parts[1..]))
  }

  // ---- where the two agree ----

  /** One token: the code goes where the standard goes, and anywhere else only by an index that is none. */
  lemma TokenExact(node: Json, part: string)
    ensures Enter(node, part).Some? ==> Descend(node, part) == Enter(node, part)
    ensures Descend(node, part) == Enter(node, part) <==> Descend(node, part).None? || (node.JArray? ==> IsIndex(part))
  {
    if node.JArray? && IsIndex(part) {
      PyIntOfDigits(part);
    }
  }

  lemma {:induction false} TokensAgree(node: Json, parts: seq<string>)
    ensures EnterAll(node, parts).Some? ==> Follow(node, parts) == EnterAll(node, parts)
    ensures Follow(node, parts) == EnterAll(node, parts) <==> Follow(node, parts).None? || PlainIndices(node, parts)
    decreases |parts|
  {
    if parts != [] {
      UnescapeIsDecode(parts[0]);
      var part := Decode(parts[0]);
      TokenExact(node, part);
      var next := Descend(node, part);
      if next.Some? {
        TokensAgree(next.value, parts[1..]);
      }
    }
  }

  /** The code finds everything the standard finds, in the same place. */
  lemma StandardIsFound(doc: Json, pointer: string)
    requires Evaluate(doc, pointer).Some?
    ensures Find(doc, pointer) == Evaluate(doc, pointer)
  {
    TokensAgree(doc, Tokens(pointer));
  }

  /**
   * On a whole pointer the code agrees with the standard exactly when it finds
   * nothing, or the escapes are well formed and no array on the way is given
   * an index that the standard does not know.
   */
  lemma FindExact(doc: Json, pointer: string)
    ensures Find(doc, pointer) == Evaluate(doc, pointer) <==>
              Find(doc, pointer).None? || (WellEscaped(pointer) && PlainIndices(doc, Tokens(pointer)))
  {
    PointerExact(pointer);
    TokensAgree(doc, Tokens(pointer));
  }

  /** The same of the value returned, where null and nothing are one. */
  lemma ResolveExact(doc: Json, pointer: string)
    ensures Resolve(doc, pointer) == Evaluate(doc, pointer).GetOr(JNull) <==>
              Resolve(doc, pointer) == JNull || (WellEscaped(pointer) && PlainIndices(doc, Tokens(pointer)))
  {
    FindExact(doc, pointer);
    if Evaluate(doc, pointer).Some? {
      StandardIsFound(doc, pointer);
    }
  }

  // ---- departures ----

  lemma FollowOne(node: Json, parts: seq<string>)
    requires |parts| == 1
    ensures Follow(node, parts) == Descend(node, Unescape(parts[0]))
    ensures EnterAll(node, parts) == Enter(node, Decode(parts[0]))
  {
    var rest := parts[1..];
    assert rest == [];
  }

  /** A pointer of one token without a slash inside. */
  lemma OneToken(node: Json, pointer: string, part: string)
    requires pointer == "/" + part && '/' !in part
    ensures Find(node, pointer) == Descend(node, Decode(part))
    ensures Evaluate(node, pointer) == if WellEscaped(pointer) then Enter(node, Decode(part)) else None
  {
    assert pointer[1..] == part;
    SplitWhole(part);
    UnescapeIsDecode(part);
    FollowOne(node, Split(part, '/'));
    PointerExact(pointer);
  }

  lemma MinusOne()
    ensures PyInt("-1") == Some(-1) && !IsIndex("-1") && Decode("-1") == "-1"
  {
    var part := "-1";
    var d := part[1..];
    assert d == "1";
    assert Decode(d) == d && part == ['-'] + d;
    assert Strip(part) == part;
    DigitsOfDigits(d);
    assert d[..0] == [] && DigitsValue(d) == 1;
    assert !IsDigit(part[0]);
  }

  /** Minus one reads the last item of every array that has one. */
  lemma NegativeIndexResolves(items: seq<Json>)
    requires items != []
    ensures Resolve(JArray(items), "/-1") == items[|items| - 1] && Evaluate(JArray(items), "/-1") == None
  {
    var pointer := "/-1";
    assert pointer == "/" + "-1";
    MinusOne();
    OneToken(JArray(items), pointer, "-1");
  }

  /** A tilde that escapes nothing is a syntax error, and finds the member of that name. */
  lemma StrayTildeResolves(value: Json)
    ensures Resolve(JObject([Field("~2", value)]), "/~2") == value && Evaluate(JObject([Field("~2", value)]), "/~2") == None
  {
    var part, pointer := "~2", "/~2";
    assert pointer == "/" + part && pointer[1] == '~' && pointer[2] == '2';
    var rest := part[1..];
    assert rest == "2" && Decode(rest) == rest && part == ['~'] + rest;
    OneToken(JObject([Field(part, value)]), pointer, part);
  }
}
