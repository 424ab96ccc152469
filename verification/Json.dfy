/** JSON values as the documents carry them, and their canonical text.

    `packages/plugin/src/structured-records.ts` compares two values by the text
    `canonical` writes for them. The theorem here is that this text determines the
    value, so comparing by text is equality of values, and every other module
    compares values directly. */
module Json {

  // ---- Optional values ----

  datatype Option<+T> = None | Some(value: T)

  function Get<K, V>(m: map<K, V>, k: K): Option<V> {
    if k in m then Some(m[k]) else None
  }

  // ---- Values ----

  /** What JSON writes for a number: the model keeps the number as its own text. */
  type NumText = s: string | IsNumText(s) witness "0"

  predicate IsNumChar(c: char) {
    '0' <= c <= '9' || c in "-+.eE"
  }

  predicate IsNumText(s: string) {
    |s| > 0 && ('0' <= s[0] <= '9' || s[0] == '-') && forall i | 0 <= i < |s| :: IsNumChar(s[i])
  }

  /** A normalised JSON value. An object is the map of its defined fields. */
  datatype Json =
    | Null
    | Bool(b: bool)
    | Num(text: NumText)
    | Str(s: string)
    | Arr(items: seq<Json>)
    | Obj(fields: map<string, Json>)

  // ---- The order strings sort in ----

  predicate Less(a: string, b: string)
  {
    if b == [] then false
    else if a == [] then true
    else if a[0] != b[0] then a[0] < b[0]
    else Less(a[1..], b[1..])
  }

  /** The lower of two texts: it is where the other goes on, or has the lower character where they first differ. */
  lemma {:induction false} LessExactly(a: string, b: string)
    ensures Less(a, b) <==>
      exists i | 0 <= i <= |a| && i < |b| :: a[..i] == b[..i] && (i == |a| || a[i] < b[i])
  {
    if a != "" && b != "" && a[0] == b[0] {
      var p, q := a[1..], b[1..];
      LessExactly(p, q);
      if i :| 0 <= i <= |p| && i < |q| && p[..i] == q[..i] && (i == |p| || p[i] < q[i]) {
        assert a[..i + 1] == [a[0]] + p[..i] == [b[0]] + q[..i] == b[..i + 1];
      }
      if i :| 0 <= i <= |a| && i < |b| && a[..i] == b[..i] && (i == |a| || a[i] < b[i]) {
        assert p[..i - 1] == a[..i][1..] == b[..i][1..] == q[..i - 1];
      }
    } else if a == "" && b != "" {
      assert a[..0] == b[..0];
    } else if a != "" && b != "" {
      assert a[..0] == b[..0];
      assert forall i | 0 < i <= |a| && i < |b| :: a[..i][0] != b[..i][0];
    }
  }

  lemma {:induction false} LessTransitive(a: string, b: string, c: string)
    requires Less(a, b) && Less(b, c)
    ensures Less(a, c)
  {
    if a != [] && a[0] == b[0] == c[0] {
      LessTransitive(a[1..], b[1..], c[1..]);
    }
  }

  lemma {:induction false} LessTotal(a: string, b: string)
    ensures !(Less(a, b) && Less(b, a))
    ensures a == b <==> !Less(a, b) && !Less(b, a)
  {
    if a != [] && b != [] && a[0] == b[0] {
      LessTotal(a[1..], b[1..]);
      assert a == [a[0]] + a[1..] && b == [b[0]] + b[1..];
    }
  }

  // ---- Keys in order ----

  predicate IsLeast(k: string, s: set<string>) {
    k in s && forall o | o in s && o != k :: Less(k, o)
  }

  lemma {:induction false} HasLeast(s: set<string>)
    requires s != {}
    ensures exists k :: IsLeast(k, s)
    decreases |s|
  {
    var x :| x in s;
    var rest := s - {x};
    if rest == {} {
      assert s == {x};
      assert IsLeast(x, s);
    } else {
      HasLeast(rest);
      var k :| IsLeast(k, rest);
      LessTotal(k, x);
      if Less(k, x) {
        assert IsLeast(k, s);
      } else {
        forall o | o in s && o != x
          ensures Less(x, o)
        {
          if o != k { LessTransitive(x, k, o); }
        }
        assert IsLeast(x, s);
      }
    }
  }

  lemma LeastUnique(s: set<string>)
    ensures forall j, k :: IsLeast(j, s) && IsLeast(k, s) ==> j == k
  {
    forall j, k | IsLeast(j, s) && IsLeast(k, s)
      ensures j == k
    {
      LessTotal(j, k);
    }
  }

  function SortedKeys(s: set<string>): (keys: seq<string>)
    ensures forall k :: k in keys <==> k in s
    decreases |s|
  {
    if s == {} then []
    else
      HasLeast(s);
      LeastUnique(s);
      var k :| k in s && IsLeast(k, s);
      [k] + SortedKeys(s - {k})
  }

  // ---- Canonical text ----

  function HexDigit(d: int): char
    requires 0 <= d < 16
  {
    "0123456789abcdef"[d]
  }

  /** A character as JSON writes it inside a string. */
  function Escape(c: char): (s: string)
    ensures |s| > 0 && s[0] != '"'
  {
    if c == '"' then "\\\""
    else if c == '\\' then "\\\\"
    else if c as int == 8 then "\\b"
    else if c as int == 9 then "\\t"
    else if c as int == 10 then "\\n"
    else if c as int == 12 then "\\f"
    else if c as int == 13 then "\\r"
    else if c as int < 32 then ['\\', 'u', '0', '0', HexDigit(c as int / 16), HexDigit(c as int % 16)]
    else [c]
  }

  /** A string in quotes, escaped, written in front of `rest`. */
  function Quoted(s: string, rest: string): string {
    ['"'] + Escaped(s, ['"'] + rest)
  }

  function Escaped(s: string, rest: string): string {
    if s == [] then rest else Escape(s[0]) + Escaped(s[1..], rest)
  }

  /** JSON with object keys sorted, written in front of `rest`. */
  function Written(j: Json, rest: string): string
    decreases j, 1, 0
  {
    match j
    case Null => "null" + rest
    case Bool(b) => (if b then "true" else "false") + rest
    case Num(text) => text + rest
    case Str(s) => Quoted(s, rest)
    case Arr(items) => ['['] + Items(j, 0, rest)
    case Obj(fields) => ['{'] + Entries(j, SortedKeys(fields.Keys), true, rest)
  }

  /** The items from the `i`th on, each after the first with a comma before it, and the closing bracket. */
  function Items(j: Json, i: nat, rest: string): string
    requires j.Arr? && i <= |j.items|
    decreases j, 0, |j.items| - i
  {
    if i == |j.items| then [']'] + rest
    else
      var item := Written(j.items[i], Items(j, i + 1, rest));
      if i == 0 then item else [','] + item
  }

  function Entries(j: Json, keys: seq<string>, first: bool, rest: string): string
    requires j.Obj? && forall k | k in keys :: k in j.fields
    decreases j, 0, |keys|
  {
    if keys == [] then ['}'] + rest
    else
      var entry := Quoted(keys[0], [':'] + Written(j.fields[keys[0]], Entries(j, keys[1..], false, rest)));
      if first then entry else [','] + entry
  }

  /** The text of a value that does not depend on the order of its keys. */
  function Canonical(j: Json): string {
    Written(j, "")
  }

  /** Whether two values mean the same, as the documents decide it: by canonical text. */
  predicate Same(a: Json, b: Json) {
    Canonical(a) == Canonical(b)
  }

  // ---- The text determines the value ----

  lemma Cut(p: string, x: string, q: string, y: string)
    requires p + x == q + y && |p| == |q|
    ensures p == q && x == y
  {
    assert (p + x)[..|p|] == p && (q + y)[..|q|] == q;
    assert (p + x)[|p|..] == x && (q + y)[|q|..] == y;
  }

  lemma HexInjective(d: int, e: int)
    requires 0 <= d < 16 && 0 <= e < 16 && HexDigit(d) == HexDigit(e)
    ensures d == e
  {
  }

  lemma EscapeInjective(c: char, d: char)
    requires Escape(c) == Escape(d)
    ensures c == d
  {
    if |Escape(c)| == 6 {
      assert Escape(c)[4] == Escape(d)[4] && Escape(c)[5] == Escape(d)[5];
      HexInjective(c as int / 16, d as int / 16);
      HexInjective(c as int % 16, d as int % 16);
      assert c as int == d as int;
    }
  }

  lemma EscapeLength(c: char, d: char, x: string, y: string)
    requires Escape(c) + x == Escape(d) + y
    ensures |Escape(c)| == |Escape(d)|
  {
    var l, r := Escape(c) + x, Escape(d) + y;
    assert l[0] == Escape(c)[0] && r[0] == Escape(d)[0];
    if l[0] == '\\' {
      assert l[1] == Escape(c)[1] && r[1] == Escape(d)[1];
    }
  }

  lemma EscapedLead(s: string, x: string)
    ensures |Escaped(s, ['"'] + x)| > 0
    ensures Escaped(s, ['"'] + x)[0] == '"' <==> s == []
  {
  }

  lemma {:induction false} EscapedPrefixFree(s: string, t: string, x: string, y: string)
    requires Escaped(s, ['"'] + x) == Escaped(t, ['"'] + y)
    ensures s == t && x == y
  {
    EscapedLead(s, x);
    EscapedLead(t, y);
    if s == [] {
      assert t == [];
      Cut(['"'], x, ['"'], y);
    } else {
      assert t != [];
      EscapeLength(s[0], t[0], Escaped(s[1..], ['"'] + x), Escaped(t[1..], ['"'] + y));
      Cut(Escape(s[0]), Escaped(s[1..], ['"'] + x), Escape(t[0]), Escaped(t[1..], ['"'] + y));
      EscapeInjective(s[0], t[0]);
      EscapedPrefixFree(s[1..], t[1..], x, y);
      assert s == [s[0]] + s[1..] && t == [t[0]] + t[1..];
    }
  }

  lemma QuotedPrefixFree(s: string, t: string, x: string, y: string)
    requires Quoted(s, x) == Quoted(t, y)
    ensures s == t && x == y
  {
    Cut(['"'], Escaped(s, ['"'] + x), ['"'], Escaped(t, ['"'] + y));
    EscapedPrefixFree(s, t, x, y);
  }

  /** What can follow a value in a text: nothing, or what closes or parts values. */
  predicate Delimited(x: string) {
    x == [] || x[0] in ",]}"
  }

  lemma NumShorter(s: string, t: string, x: string, y: string)
    requires forall i | 0 <= i < |t| :: IsNumChar(t[i])
    requires Delimited(x) && s + x == t + y
    ensures |t| <= |s|
  {
    var l, r := s + x, t + y;
    assert |l| == |r|;
    assert |s| < |l| ==> l[|s|] == x[0] && !IsNumChar(l[|s|]);
    assert forall i | 0 <= i < |t| :: r[i] == t[i] && IsNumChar(r[i]);
  }

  /** The first character of a value's text says what kind of value it is. */
  function Lead(j: Json): char {
    match j
    case Null => 'n'
    case Bool(b) => if b then 't' else 'f'
    case Num(text) => text[0]
    case Str(_) => '"'
    case Arr(_) => '['
    case Obj(_) => '{'
  }

  lemma WrittenLead(j: Json, x: string)
    ensures |Written(j, x)| > 0 && Written(j, x)[0] == Lead(j)
  {
  }

  lemma KindByLead(a: Json, b: Json)
    requires Lead(a) == Lead(b)
    ensures a.Null? == b.Null? && a.Bool? == b.Bool? && a.Num? == b.Num?
    ensures a.Str? == b.Str? && a.Arr? == b.Arr? && a.Obj? == b.Obj?
    ensures a.Bool? ==> a == b
  {
  }

  lemma ItemsLead(j: Json, i: nat, x: string)
    requires j.Arr? && i <= |j.items|
    ensures Delimited(Items(j, i, x)) <== i > 0
    ensures |Items(j, i, x)| > 0
    ensures Items(j, i, x)[0] ==
      if i == |j.items| then ']' else if i == 0 then Lead(j.items[0]) else ','
  {
    if i < |j.items| { WrittenLead(j.items[i], Items(j, i + 1, x)); }
  }

  lemma EntriesLead(j: Json, keys: seq<string>, first: bool, x: string)
    requires j.Obj? && forall k | k in keys :: k in j.fields
    ensures |Entries(j, keys, first, x)| > 0
    ensures Entries(j, keys, first, x)[0] == if keys == [] then '}' else if first then '"' else ','
  {
  }

  lemma {:induction false} WrittenPrefixFree(a: Json, b: Json, x: string, y: string)
    requires Delimited(x) && Delimited(y)
    requires Written(a, x) == Written(b, y)
    ensures a == b && x == y
    decreases a, 1, 0
  {
    WrittenLead(a, x);
    WrittenLead(b, y);
    KindByLead(a, b);
    match a {
      case Null => Cut("null", x, "null", y);
      case Bool(v) => Cut(if v then "true" else "false", x, if v then "true" else "false", y);
      case Num(text) =>
        NumShorter(text, b.text, x, y);
        NumShorter(b.text, text, y, x);
        Cut(text, x, b.text, y);
      case Str(s) => QuotedPrefixFree(s, b.s, x, y);
      case Arr(_) =>
        Cut(['['], Items(a, 0, x), ['['], Items(b, 0, y));
        ItemsPrefixFree(a, b, 0, x, y);
      case Obj(_) => ObjectPrefixFree(a, b, x, y);
    }
  }

  lemma {:induction false} ObjectPrefixFree(a: Json, b: Json, x: string, y: string)
    requires a.Obj? && b.Obj? && Delimited(x) && Delimited(y)
    requires Written(a, x) == Written(b, y)
    ensures a == b && x == y
    decreases a, 0, |SortedKeys(a.fields.Keys)| + 1
  {
    var ka, kb := SortedKeys(a.fields.Keys), SortedKeys(b.fields.Keys);
    Cut(['{'], Entries(a, ka, true, x), ['{'], Entries(b, kb, true, y));
    EntriesPrefixFree(a, b, ka, kb, true, x, y);
    assert forall k :: k in a.fields <==> k in ka;
    assert forall k :: k in b.fields <==> k in kb;
    assert a.fields == b.fields;
  }

  lemma {:induction false} ItemsPrefixFree(a: Json, b: Json, i: nat, x: string, y: string)
    requires a.Arr? && b.Arr? && i <= |a.items| && i <= |b.items|
    requires Items(a, i, x) == Items(b, i, y)
    requires a.items[..i] == b.items[..i]
    ensures a == b && x == y
    decreases a, 0, |a.items| - i
  {
    ItemsLead(a, i, x);
    ItemsLead(b, i, y);
    if i == |a.items| {
      assert i == |b.items|;
      Cut([']'], x, [']'], y);
      assert a.items == a.items[..i] && b.items == b.items[..i];
    } else {
      assert i < |b.items|;
      var restA, restB := Items(a, i + 1, x), Items(b, i + 1, y);
      if i > 0 { Cut([','], Written(a.items[i], restA), [','], Written(b.items[i], restB)); }
      ItemsLead(a, i + 1, x);
      ItemsLead(b, i + 1, y);
      WrittenPrefixFree(a.items[i], b.items[i], restA, restB);
      assert a.items[..i + 1] == a.items[..i] + [a.items[i]];
      assert b.items[..i + 1] == b.items[..i] + [b.items[i]];
      ItemsPrefixFree(a, b, i + 1, x, y);
    }
  }

  lemma {:induction false} EntriesPrefixFree(a: Json, b: Json, ka: seq<string>, kb: seq<string>, first: bool,
      x: string, y: string)
    requires a.Obj? && b.Obj?
    requires forall k | k in ka :: k in a.fields
    requires forall k | k in kb :: k in b.fields
    requires Entries(a, ka, first, x) == Entries(b, kb, first, y)
    ensures ka == kb && x == y
    ensures forall k | k in ka :: a.fields[k] == b.fields[k]
    decreases a, 0, |ka|
  {
    EntriesLead(a, ka, first, x);
    EntriesLead(b, kb, first, y);
    if ka == [] {
      assert kb == [];
      Cut(['}'], x, ['}'], y);
    } else {
      assert kb != [];
      var restA, restB := Entries(a, ka[1..], false, x), Entries(b, kb[1..], false, y);
      var valA, valB := Written(a.fields[ka[0]], restA), Written(b.fields[kb[0]], restB);
      if !first { Cut([','], Quoted(ka[0], [':'] + valA), [','], Quoted(kb[0], [':'] + valB)); }
      QuotedPrefixFree(ka[0], kb[0], [':'] + valA, [':'] + valB);
      Cut([':'], valA, [':'], valB);
      EntriesLead(a, ka[1..], false, x);
      EntriesLead(b, kb[1..], false, y);
      WrittenPrefixFree(a.fields[ka[0]], b.fields[kb[0]], restA, restB);
      EntriesPrefixFree(a, b, ka[1..], kb[1..], false, x, y);
      assert ka == [ka[0]] + ka[1..] && kb == [kb[0]] + kb[1..];
    }
  }

  /** Comparing by canonical text is equality of values. */
  lemma SameIsEquality(a: Json, b: Json)
    ensures Same(a, b) <==> a == b
  {
    if Same(a, b) { WrittenPrefixFree(a, b, "", ""); }
  }

  // ---- Whole numbers ----

  /** A whole number as JSON writes it. */
  function IntText(n: int): (t: NumText)
    decreases n < 0, if n < 0 then -n else n
  {
    if n < 0 then "-" + NatText(-n) else NatText(n)
  }

  function NatText(n: nat): (t: string)
    ensures |t| > 0 && forall i | 0 <= i < |t| :: '0' <= t[i] <= '9'
  {
    if n < 10 then ["0123456789"[n]] else NatText(n / 10) + ["0123456789"[n % 10]]
  }

  /** A value a condition reads as false. */
  predicate Falsy(j: Json) {
    j == Null || j == Bool(false) || j == Num("0") || j == Str("")
  }
}
