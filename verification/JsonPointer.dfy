/** JSON documents, the JSON Pointer resolver of the schema checks, and the walker that yields every node. */
module JsonPointer {
  import opened Wrappers
  import opened Text

  datatype Json =
    | JNull
    | JBool(b: bool)
    | JNumber(text: string)
    | JString(s: string)
    | JArray(items: seq<Json>)
    | JObject(fields: seq<Field>)

  /** An object keeps its members in the order they were read. */
  datatype Field = Field(key: string, value: Json)

  datatype Step = Key(key: string) | Index(index: nat)

  /** A parsed object has each key once, at every depth. */
  ghost predicate WellFormed(node: Json) {
    match node
    case JArray(items) => forall i | 0 <= i < |items| :: WellFormed(items[i])
    case JObject(fields) =>
      && (forall i, j | 0 <= i < j < |fields| :: fields[i].key != fields[j].key)
      && (forall i | 0 <= i < |fields| :: WellFormed(fields[i].value))
    case _ => true
  }

  function Get(fields: seq<Field>, key: string): (r: Option<Json>)
    ensures r.Some? ==> exists i | 0 <= i < |fields| :: fields[i] == Field(key, r.value)
    ensures r.None? <==> forall i | 0 <= i < |fields| :: fields[i].key != key
  {
    if fields == [] then None
    else if fields[0].key == key then Some(fields[0].value)
    else
      var r := Get(fields[1..], key);
      assert r.Some? ==> exists i | 0 <= i < |fields[1..]| ::
                       fields[1..][i] == Field(key, r.value) && fields[i + 1] == fields[1..][i];
      r
  }

  // ---- escaping ----

  /** Replaces each tilde followed by the given character, left to right. */
  function ReplacePair(s: string, second: char, put: char): string {
    if |s| < 2 then s
    else if s[0] == '~' && s[1] == second then [put] + ReplacePair(s[2..], second, put)
    else [s[0]] + ReplacePair(s[1..], second, put)
  }

  function Unescape(part: string): string {
    ReplacePair(ReplacePair(part, '1', '/'), '0', '~')
  }

  /** Section 4 of RFC 6901 read in one pass. */
  function Decode(s: string): string {
    if |s| < 2 then s
    else if s[0] == '~' && s[1] == '1' then "/" + Decode(s[2..])
    else if s[0] == '~' && s[1] == '0' then "~" + Decode(s[2..])
    else [s[0]] + Decode(s[1..])
  }

  /** Section 3 of RFC 6901. */
  function Escape(s: string): string {
    if s == [] then ""
    else (if s[0] == '~' then "~0" else if s[0] == '/' then "~1" else [s[0]]) + Escape(s[1..])
  }

  /** The two replacements, in the order the code makes them, are the one-pass decoding, on every string. */
  lemma {:induction false} UnescapeIsDecode(s: string)
    ensures Unescape(s) == Decode(s)
  {
    var first := ReplacePair(s, '1', '/');
    if |s| < 2 {
    } else if s[0] == '~' && s[1] == '1' {
      UnescapeIsDecode(s[2..]);
      assert first == "/" + ReplacePair(s[2..], '1', '/');
      PassOver('/', ReplacePair(s[2..], '1', '/'));
    } else if s[0] == '~' && s[1] == '0' {
      UnescapeIsDecode(s[2..]);
      var rest := ReplacePair(s[2..], '1', '/');
      PairlessHead(s[1..]);
      assert s[1..][1..] == s[2..];
      assert first == "~" + ("0" + rest);
      assert first[2..] == rest;
    } else {
      UnescapeIsDecode(s[1..]);
      var rest := ReplacePair(s[1..], '1', '/');
      PairlessHead(s[1..]);
      assert first == [s[0]] + rest;
      assert first[1..] == rest;
    }
  }

  lemma PassOver(c: char, s: string)
    requires c != '~'
    ensures ReplacePair([c] + s, '0', '~') == [c] + ReplacePair(s, '0', '~')
  {
    assert ([c] + s)[1..] == s;
  }

  /** What the first replacement leaves at the front. */
  lemma PairlessHead(s: string)
    requires s != []
    ensures var r := ReplacePair(s, '1', '/');
            && r != [] && (r[0] == s[0] || r[0] == '/')
            && (s[0] != '~' ==> r == [s[0]] + ReplacePair(s[1..], '1', '/'))
  {
  }

  lemma {:induction false} DecodeEscape(s: string)
    ensures Decode(Escape(s)) == s
  {
    if s != [] {
      DecodeEscape(s[1..]);
      var rest := Escape(s[1..]);
      if s[0] == '~' {
        assert Escape(s) == "~0" + rest && Escape(s)[2..] == rest;
        assert Decode(Escape(s)) == "~" + Decode(rest);
      } else if s[0] == '/' {
        assert Escape(s) == "~1" + rest && Escape(s)[2..] == rest;
        assert Decode(Escape(s)) == "/" + Decode(rest);
      } else {
        assert Escape(s) == [s[0]] + rest && Escape(s)[1..] == rest;
        assert Decode(Escape(s)) == [s[0]] + Decode(rest);
      }
      assert s == [s[0]] + s[1..];
    }
  }

  lemma {:induction false} EscapeHasNoSlash(s: string)
    ensures '/' !in Escape(s)
  {
    if s != [] {
      EscapeHasNoSlash(s[1..]);
    }
  }

  // ---- list indices ----

  predicate IsSpace(c: char) {
    c == ' ' || '\t' <= c <= '\r' || '\U{001C}' <= c <= '\U{001F}'
  }

  function Strip(s: string): string {
    if s != [] && IsSpace(s[0]) then Strip(s[1..])
    else if s != [] && IsSpace(s[|s| - 1]) then Strip(s[..|s| - 1])
    else s
  }

  /** Digits, with single underscores allowed between them. */
  predicate DigitGroups(s: string) {
    && s != [] && IsDigit(s[0]) && IsDigit(s[|s| - 1])
    && (forall i | 0 <= i < |s| :: IsDigit(s[i]) || s[i] == '_')
    && (forall i | 0 < i < |s| && s[i] == '_' :: s[i - 1] != '_')
  }

  function Digits(s: string): (r: string)
    requires forall i | 0 <= i < |s| :: IsDigit(s[i]) || s[i] == '_'
    ensures forall i | 0 <= i < |r| :: IsDigit(r[i])
  {
    if s == [] then []
    else if s[0] == '_' then Digits(s[1..])
    else [s[0]] + Digits(s[1..])
  }

  /** Python's int() on ASCII text: blanks around, a sign, digit groups. */
  function PyInt(s: string): Option<int> {
    var t := Strip(s);
    var signed := t != [] && (t[0] == '-' || t[0] == '+');
    var d := if signed then t[1..] else t;
    if !DigitGroups(d) then None
    else
      var value: int := DigitsValue(Digits(d));
      Some(if signed && t[0] == '-' then -value else value)
  }

  lemma {:induction false} DigitsOfDigits(s: string)
    requires forall i | 0 <= i < |s| :: IsDigit(s[i])
    ensures Digits(s) == s
  {
    if s != [] {
      assert IsDigit(s[0]);
      DigitsOfDigits(s[1..]);
    }
  }

  predicate DigitsOrUnderscores(s: string) {
    forall i | 0 <= i < |s| :: IsDigit(s[i]) || s[i] == '_'
  }

  /** Groups of digits read as their digits in a row. */
  lemma {:induction false} DigitsOfGroups(a: string, b: string)
    requires DigitsOrUnderscores(a) && DigitsOrUnderscores(b)
    ensures DigitsOrUnderscores(a + "_" + b) && Digits(a + "_" + b) == Digits(a) + Digits(b)
  {
    var s := a + "_" + b;
    if a == [] {
      assert s == "_" + b && s[1..] == b;
    } else {
      assert s[1..] == a[1..] + "_" + b;
      DigitsOfGroups(a[1..], b);
    }
  }

  ghost predicate AllGroups(parts: seq<string>) {
    forall i | 0 <= i < |parts| :: parts[i] != "" && forall j | 0 <= j < |parts[i]| :: IsDigit(parts[i][j])
  }

  lemma GroupsHead(c: char, parts: seq<string>)
    requires parts != [] && parts[0] != ""
    ensures AllGroups([[c] + parts[0]] + parts[1..]) <==> IsDigit(c) && AllGroups(parts)
  {
    var more := [[c] + parts[0]] + parts[1..];
    assert forall i | 0 < i < |parts| :: more[i] == parts[i];
    assert forall j | 0 <= j < |parts[0]| :: more[0][j + 1] == parts[0][j];
    if AllGroups(more) {
      assert more[0][0] == c;
      assert forall i | 0 < i < |parts| :: more[i] != "";
    }
  }

  lemma GroupsNext(c: char, parts: seq<string>)
    ensures AllGroups([[c]] + parts) <==> IsDigit(c) && AllGroups(parts)
  {
    var more := [[c]] + parts;
    assert forall i | 0 <= i < |parts| :: more[i + 1] == parts[i];
    if AllGroups(more) {
      assert more[0][0] == c;
    }
  }

  /** Between underscores stand digits, at least one each time. */
  lemma {:induction false} DigitGroupsExact(s: string)
    ensures DigitGroups(s) <==> AllGroups(Split(s, '_'))
  {
    if s == [] {
      assert Split(s, '_')[0] == "";
    } else if s[0] == '_' {
      assert Split(s, '_')[0] == "";
    } else if |s| == 1 {
      var rest := Split(s[1..], '_');
      assert s[1..] == [] && rest == [""] && rest[1..] == [] && [s[0]] + "" == [s[0]];
      GroupsNext(s[0], []);
      assert Split(s, '_') == [[s[0]]] + [];
    } else if s[1] == '_' {
      DigitGroupsExact(s[2..]);
      var rest := Split(s[1..], '_');
      assert s[1..][1..] == s[2..] && rest == [""] + Split(s[2..], '_');
      assert rest[1..] == Split(s[2..], '_') && [s[0]] + "" == [s[0]];
      assert Split(s, '_') == [[s[0]]] + Split(s[2..], '_');
      GroupsNext(s[0], Split(s[2..], '_'));
      DigitGroupsTail(s, 2);
    } else {
      DigitGroupsExact(s[1..]);
      GroupsHead(s[0], Split(s[1..], '_'));
      DigitGroupsTail(s, 1);
    }
  }

  lemma DigitGroupsTail(s: string, n: nat)
    requires n == 1 || n == 2
    requires |s| >= 2 && s[0] != '_' && (s[1] == '_' <==> n == 2)
    ensures DigitGroups(s) <==> IsDigit(s[0]) && DigitGroups(s[n..])
  {
    var t := s[n..];
    assert forall i | 0 <= i < |t| :: t[i] == s[n + i];
    if DigitGroups(t) {
      assert forall i | n <= i < |s| :: s[i] == t[i - n];
      assert s[|s| - 1] == t[|t| - 1];
    }
    if DigitGroups(s) {
      if n == 2 {
        assert |s| > 2;
      }
      assert t[|t| - 1] == s[|s| - 1];
    }
  }

  ghost predicate Blank(s: string) {
    forall i | 0 <= i < |s| :: IsSpace(s[i])
  }

  /** Blanks, a sign or none, groups of digits, blanks, and the number they write. */
  ghost predicate WritesInt(s: string, v: int, left: string, sign: string, d: string, right: string) {
    && s == left + sign + d + right && Blank(left) && Blank(right)
    && (sign == "" || sign == "+" || sign == "-") && DigitGroups(d)
    && var n: int := DigitsValue(Digits(d)); v == if sign == "-" then -n else n
  }

  lemma {:induction false} StripBlanks(left: string, t: string, right: string)
    requires Blank(left) && Blank(right) && t != [] && !IsSpace(t[0]) && !IsSpace(t[|t| - 1])
    ensures Strip(left + t + right) == t
    decreases |left| + |right|
  {
    var s := left + t + right;
    if left != [] {
      assert s[0] == left[0] && s[1..] == left[1..] + t + right;
      StripBlanks(left[1..], t, right);
    } else if right != [] {
      var n := |right| - 1;
      assert s[0] == t[0] && s[|s| - 1] == right[n] && s[..|s| - 1] == left + t + right[..n];
      StripBlanks(left, t, right[..n]);
    } else {
      assert s == t;
    }
  }

  lemma {:induction false} StripParts(s: string) returns (left: string, right: string)
    ensures s == left + Strip(s) + right && Blank(left) && Blank(right)
  {
    if s != [] && IsSpace(s[0]) {
      var l, r := StripParts(s[1..]);
      PutBack(s, s[0], l, Strip(s[1..]), r);
      left, right := [s[0]] + l, r;
    } else if s != [] && IsSpace(s[|s| - 1]) {
      var n := |s| - 1;
      var l, r := StripParts(s[..n]);
      PutAfter(s, s[n], l, Strip(s[..n]), r);
      left, right := l, r + [s[n]];
    } else {
      left, right := [], [];
      assert s == left + s + right;
    }
  }

  lemma PutBack(s: string, c: char, left: string, t: string, right: string)
    requires s != [] && s[0] == c && s[1..] == left + t + right
    ensures s == [c] + left + t + right
  {
    assert s == [c] + s[1..];
  }

  lemma PutAfter(s: string, c: char, left: string, t: string, right: string)
    requires s != [] && s[|s| - 1] == c && s[..|s| - 1] == left + t + right
    ensures s == left + t + (right + [c])
  {
    assert s == s[..|s| - 1] + [c];
  }

  lemma WrittenIsRead(s: string, v: int, left: string, sign: string, d: string, right: string)
    requires WritesInt(s, v, left, sign, d, right)
    ensures PyInt(s) == Some(v)
  {
    var t := sign + d;
    Grouped(left, sign, d, right);
    SignedEnds(sign, d);
    StripBlanks(left, t, right);
    StrippedIsRead(s, t, sign, d);
  }

  lemma Grouped(left: string, sign: string, d: string, right: string)
    ensures left + sign + d + right == left + (sign + d) + right
  {
  }

  lemma StrippedIsRead(s: string, t: string, sign: string, d: string)
    requires Strip(s) == t && DigitGroups(d) && t != []
    requires (sign == "" && t == d) || ((sign == "+" || sign == "-") && t[0] == sign[0] && t[1..] == d)
    ensures var n: int := DigitsValue(Digits(d)); PyInt(s) == Some(if sign == "-" then -n else n)
  {
    assert IsDigit(d[0]);
  }

  lemma SignedEnds(sign: string, d: string)
    requires (sign == "" || sign == "+" || sign == "-") && DigitGroups(d)
    ensures var t := sign + d;
            && !IsSpace(t[0]) && !IsSpace(t[|t| - 1])
            && (sign == "" ==> t == d && IsDigit(t[0]))
            && (sign != "" ==> t[0] == sign[0] && t[1..] == d)
  {
    var t := sign + d;
    assert t[|t| - 1] == d[|d| - 1];
    assert sign == "" ==> t == d;
  }

  lemma ReadIsWritten(s: string) returns (left: string, sign: string, d: string, right: string)
    requires PyInt(s).Some?
    ensures WritesInt(s, PyInt(s).value, left, sign, d, right)
  {
    left, right := StripParts(s);
    sign, d := SignOf(Strip(s));
    Grouped(left, sign, d, right);
  }

  lemma SignOf(t: string) returns (sign: string, d: string)
    ensures t == sign + d && (sign == "" || sign == "+" || sign == "-")
    ensures if t != [] && (t[0] == '-' || t[0] == '+') then d == t[1..] && sign == [t[0]] else d == t && sign == ""
  {
    if t != [] && (t[0] == '-' || t[0] == '+') {
      sign, d := [t[0]], t[1..];
    } else {
      sign, d := "", t;
    }
  }

  /** Which tokens Python reads as integers, and as which. */
  lemma PyIntExact(s: string, v: int)
    ensures PyInt(s) == Some(v) <==> exists left, sign, d, right :: WritesInt(s, v, left, sign, d, right)
  {
    if PyInt(s) == Some(v) {
      var left, sign, d, right := ReadIsWritten(s);
    } else if exists left, sign, d, right :: WritesInt(s, v, left, sign, d, right) {
      var left, sign, d, right :| WritesInt(s, v, left, sign, d, right);
      WrittenIsRead(s, v, left, sign, d, right);
    }
  }

  lemma PyIntOfDigits(s: string)
    requires s != [] && forall i | 0 <= i < |s| :: IsDigit(s[i])
    ensures PyInt(s) == Some(DigitsValue(s))
  {
    assert IsDigit(s[0]) && IsDigit(s[|s| - 1]);
    DigitsAreGroups(s);
    DigitsOfDigits(s);
  }

  lemma DigitsAreGroups(s: string)
    requires s != [] && forall i | 0 <= i < |s| :: IsDigit(s[i])
    ensures Strip(s) == s && DigitGroups(s)
  {
    assert IsDigit(s[0]) && IsDigit(s[|s| - 1]);
  }

  // ---- evaluation ----

  /** Python's list indexing: negative indices count from the end. */
  function ItemAt(items: seq<Json>, index: Option<int>): Option<Json> {
    if index.None? then None
    else if 0 <= index.value < |items| then Some(items[index.value])
    else if -|items| <= index.value < 0 then Some(items[|items| + index.value])
    else None
  }

  /** One reference token, already unescaped. */
  function Descend(node: Json, part: string): Option<Json> {
    match node
    case JObject(fields) => Get(fields, part)
    case JArray(items) => ItemAt(items, PyInt(part))
    case _ => None
  }

  function Follow(node: Json, parts: seq<string>): Option<Json>
    decreases |parts|
  {
    if parts == [] then Some(node)
    else
      var next := Descend(node, Unescape(parts[0]));
      if next.None? then None else Follow(next.value, parts[1..])
  }

  function Split(s: string, sep: char): (r: seq<string>)
    ensures r != []
  {
    if s == [] then [""]
    else
      var rest := Split(s[1..], sep);
      if s[0] == sep then [""] + rest else [[s[0]] + rest[0]] + rest[1..]
  }

  /** The node a pointer leads to, if any. */
  function Find(doc: Json, pointer: string): Option<Json> {
    if pointer == "" then Some(doc)
    else if pointer[0] != '/' then None
    else Follow(doc, Split(pointer[1..], '/'))
  }

  /** A pointer's value; JSON null and "not found" are both Python's None. */
  function Resolve(doc: Json, pointer: string): Json {
    Find(doc, pointer).GetOr(JNull)
  }

  /** The loop over the reference tokens. */
  method ResolveJsonPointer(doc: Json, pointer: string) returns (r: Json)
    ensures r == Resolve(doc, pointer)
  {
    if pointer == "" {
      return doc;
    }
    if pointer[0] != '/' {
      return JNull;
    }
    var parts := Split(pointer[1..], '/');
    var current := doc;
    for i := 0 to |parts|
      invariant Follow(current, parts[i..]) == Follow(doc, parts)
    {
      assert parts[i..][1..] == parts[i + 1..];
      var next := Descend(current, Unescape(parts[i]));
      if next.None? {
        return JNull;
      }
      current := next.value;
    }
    return current;
  }

  // ---- pointers built from paths ----

  function StepText(step: Step): string {
    match step
    case Key(k) => k
    case Index(i) => Decimal(i)
  }

  function Pointer(path: seq<Step>): string {
    if path == [] then "" else Pointer(path[..|path| - 1]) + "/" + Escape(StepText(path[|path| - 1]))
  }

  function Child(node: Json, step: Step): Option<Json> {
    match node
    case JObject(fields) => if step.Key? then Get(fields, step.key) else None
    case JArray(items) => if step.Index? && step.index < |items| then Some(items[step.index]) else None
    case _ => None
  }

  /** Walking a path by its own steps. */
  function At(node: Json, path: seq<Step>): Option<Json>
    decreases |path|
  {
    if path == [] then Some(node)
    else
      var next := Child(node, path[0]);
      if next.None? then None else At(next.value, path[1..])
  }

  function EscapedSteps(path: seq<Step>): seq<string> {
    seq(|path|, i requires 0 <= i < |path| => Escape(StepText(path[i])))
  }

  lemma {:induction false} SplitAppend(s: string, item: string)
    requires '/' !in item
    ensures Split(s + "/" + item, '/') == Split(s, '/') + [item]
  {
    if s == [] {
      SplitWhole(item);
      assert s + "/" + item == "/" + item;
      assert ("/" + item)[1..] == item;
    } else {
      SplitAppend(s[1..], item);
      assert (s + "/" + item)[1..] == s[1..] + "/" + item;
    }
  }

  lemma {:induction false} SplitWhole(item: string)
    requires '/' !in item
    ensures Split(item, '/') == [item]
  {
    if item != [] {
      SplitWhole(item[1..]);
      assert item == [item[0]] + item[1..];
    }
  }

  /** Splitting loses nothing: the parts hold no separator and join to the string. */
  lemma {:induction false} SplitExact(s: string, sep: char)
    ensures Join(Split(s, sep), [sep]) == s
    ensures forall part | part in Split(s, sep) :: sep !in part
  {
    if s != [] {
      SplitExact(s[1..], sep);
      var rest := Split(s[1..], sep);
      assert s == [s[0]] + s[1..];
      if s[0] == sep {
        assert ([""] + rest)[1..] == rest;
        assert Join([""] + rest, [sep]) == "" + [sep] + Join(rest, [sep]);
      } else {
        var parts := [[s[0]] + rest[0]] + rest[1..];
        assert parts[1..] == rest[1..];
        assert Join(parts, [sep]) == [s[0]] + Join(rest, [sep]);
      }
    }
  }

  lemma {:induction false} PointerSplits(path: seq<Step>)
    requires path != []
    ensures Pointer(path) != [] && Pointer(path)[0] == '/'
    ensures Split(Pointer(path)[1..], '/') == EscapedSteps(path)
  {
    var n := |path| - 1;
    var front, item := path[..n], Escape(StepText(path[n]));
    EscapeHasNoSlash(StepText(path[n]));
    assert EscapedSteps(path) == EscapedSteps(front) + [item];
    if n == 0 {
      assert Pointer(front) == "" && EscapedSteps(front) == [];
      assert Pointer(path) == "/" + item;
      assert Pointer(path)[1..] == item;
      SplitWhole(item);
    } else {
      PointerSplits(front);
      LongerPointer(Pointer(front), item, Pointer(path));
    }
  }

  lemma LongerPointer(front: string, item: string, whole: string)
    requires front != [] && front[0] == '/' && '/' !in item && whole == front + "/" + item
    ensures whole != [] && whole[0] == '/'
    ensures Split(whole[1..], '/') == Split(front[1..], '/') + [item]
  {
    assert whole[1..] == front[1..] + "/" + item;
    SplitAppend(front[1..], item);
  }

  lemma {:induction false} FollowIsAt(node: Json, path: seq<Step>)
    requires At(node, path).Some?
    ensures Follow(node, EscapedSteps(path)) == At(node, path)
    decreases |path|
  {
    if path != [] {
      var parts := EscapedSteps(path);
      UnescapeIsDecode(parts[0]);
      DecodeEscape(StepText(path[0]));
      if node.JArray? {
        PyIntOfDigits(Decimal(path[0].index));
        DecimalRoundTrip(path[0].index);
      }
      assert parts[1..] == EscapedSteps(path[1..]);
      FollowIsAt(Descend(node, Unescape(parts[0])).value, path[1..]);
    }
  }

  // ---- the walkers ----

  datatype Visit = Visit(node: Json, path: seq<Step>)

  function WalkNodes(node: Json, path: seq<Step>): seq<Visit>
    decreases node, 1
  {
    [Visit(node, path)] +
    match node
    case JObject(fields) => WalkFields(fields, path)
    case JArray(items) => WalkItems(items, 0, path)
    case _ => []
  }

  function WalkFields(fields: seq<Field>, path: seq<Step>): seq<Visit>
    decreases fields, 0
  {
    if fields == [] then []
    else WalkNodes(fields[0].value, path + [Key(fields[0].key)]) + WalkFields(fields[1..], path)
  }

  function WalkItems(items: seq<Json>, from: nat, path: seq<Step>): seq<Visit>
    decreases items, 0
  {
    if items == [] then []
    else WalkNodes(items[0], path + [Index(from)]) + WalkItems(items[1..], from + 1, path)
  }

  lemma {:induction false} AtAppend(node: Json, path: seq<Step>, rest: seq<Step>)
    requires At(node, path).Some?
    ensures At(node, path + rest) == At(At(node, path).value, rest)
    decreases |path|
  {
    if path == [] {
      assert path + rest == rest;
    } else {
      assert (path + rest)[1..] == path[1..] + rest;
      AtAppend(Child(node, path[0]).value, path[1..], rest);
    }
  }

  /** Every visit below a node is where its path leads. */
  lemma {:induction false} VisitsAreAt(doc: Json, node: Json, path: seq<Step>)
    requires WellFormed(node) && At(doc, path) == Some(node)
    ensures forall v | v in WalkNodes(node, path) :: At(doc, v.path) == Some(v.node)
    decreases node, 1
  {
    match node
    case JObject(fields) => FieldVisitsAreAt(doc, node, fields, 0, path);
    case JArray(items) => ItemVisitsAreAt(doc, node, items, 0, path);
    case _ =>
  }

  lemma {:induction false} FieldVisitsAreAt(doc: Json, node: Json, fields: seq<Field>, from: nat, path: seq<Step>)
    requires node.JObject? && WellFormed(node) && At(doc, path) == Some(node)
    requires from <= |node.fields| && fields == node.fields[from..]
    ensures forall v | v in WalkFields(fields, path) :: At(doc, v.path) == Some(v.node)
    decreases fields, 0
  {
    if fields != [] {
      var f := node.fields[from];
      assert fields[0] == f;
      AtAppend(doc, path, [Key(f.key)]);
      GetUnique(node.fields, from);
      assert [Key(f.key)][1..] == [];
      VisitsAreAt(doc, f.value, path + [Key(f.key)]);
      FieldVisitsAreAt(doc, node, fields[1..], from + 1, path);
    }
  }

  lemma GetUnique(fields: seq<Field>, i: nat)
    requires i < |fields| && forall j, k | 0 <= j < k < |fields| :: fields[j].key != fields[k].key
    ensures Get(fields, fields[i].key) == Some(fields[i].value)
  {
    var r := Get(fields, fields[i].key);
    assert fields[i].key == fields[i].key;
    var k :| 0 <= k < |fields| && fields[k] == Field(fields[i].key, r.value);
  }

  lemma {:induction false} ItemVisitsAreAt(doc: Json, node: Json, items: seq<Json>, from: nat, path: seq<Step>)
    requires node.JArray? && WellFormed(node) && At(doc, path) == Some(node)
    requires from <= |node.items| && items == node.items[from..]
    ensures forall v | v in WalkItems(items, from, path) :: At(doc, v.path) == Some(v.node)
    decreases items, 0
  {
    if items != [] {
      assert items[0] == node.items[from];
      AtAppend(doc, path, [Index(from)]);
      assert [Index(from)][1..] == [];
      VisitsAreAt(doc, items[0], path + [Index(from)]);
      ItemVisitsAreAt(doc, node, items[1..], from + 1, path);
    }
  }

  lemma {:induction false} WalkReaches(node: Json, path: seq<Step>, rest: seq<Step>)
    requires At(node, rest).Some?
    ensures Visit(At(node, rest).value, path + rest) in WalkNodes(node, path)
    decreases |rest|
  {
    if rest == [] {
      assert path + rest == path;
    } else {
      var child := Child(node, rest[0]).value;
      WalkReaches(child, path + [rest[0]], rest[1..]);
      assert path + [rest[0]] + rest[1..] == path + rest;
      if node.JObject? {
        var i :| 0 <= i < |node.fields| && node.fields[i] == Field(rest[0].key, child);
        FieldIsWalked(node.fields, i, path);
      } else {
        ItemIsWalked(node.items, 0, rest[0].index, path);
      }
    }
  }

  lemma {:induction false} FieldIsWalked(fields: seq<Field>, i: nat, path: seq<Step>)
    requires i < |fields|
    ensures forall v | v in WalkNodes(fields[i].value, path + [Key(fields[i].key)]) :: v in WalkFields(fields, path)
    decreases |fields|
  {
    if i > 0 {
      FieldIsWalked(fields[1..], i - 1, path);
    }
  }

  lemma {:induction false} ItemIsWalked(items: seq<Json>, from: nat, i: nat, path: seq<Step>)
    requires i < |items|
    ensures forall v | v in WalkNodes(items[i], path + [Index(from + i)]) :: v in WalkItems(items, from, path)
    decreases |items|
  {
    if i > 0 {
      ItemIsWalked(items[1..], from + 1, i - 1, path);
    }
  }

  /** The walker yields every node of a document with its path, and nothing else. */
  lemma WalkIsExact(doc: Json, v: Visit)
    requires WellFormed(doc)
    ensures v in WalkNodes(doc, []) <==> At(doc, v.path) == Some(v.node)
  {
    VisitsAreAt(doc, doc, []);
    if At(doc, v.path) == Some(v.node) {
      WalkReaches(doc, [], v.path);
      assert [] + v.path == v.path;
    }
  }

  /**
   * Round trip: for every document and every node the walker yields, the
   * pointer written from its path resolves to that node, whatever slashes,
   * tildes or digits the keys hold.
   */
  lemma WalkedPointersResolve(doc: Json, v: Visit)
    requires WellFormed(doc) && v in WalkNodes(doc, [])
    ensures Resolve(doc, Pointer(v.path)) == v.node
  {
    VisitsAreAt(doc, doc, []);
    FollowIsAt(doc, v.path);
    if v.path != [] {
      PointerSplits(v.path);
    }
  }
}
