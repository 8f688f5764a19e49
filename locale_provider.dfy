/** Message translation (lib/localeProvider.tsx): the plural category of a
    count, and `t`, which looks a dotted key up in the locale's message tree,
    picks a plural variant and fills in `{{name}}` placeholders. The message
    tree, the locale and the parameters are inputs. */
module LocaleProvider {
  import opened Common

  // ---------------------------------------------------------------------
  // Plural categories
  // ---------------------------------------------------------------------

  /** JavaScript's `%` on integers: the remainder takes the sign of the
      dividend (truncating division), unlike Dafny's Euclidean `%`. */
  function JsRem(a: int, m: nat): (r: int)
    requires m > 0
    ensures a >= 0 ==> r == a % m
    ensures -(m as int) < r < m
  {
    if a >= 0 then a % m else -((-a) % m)
  }

  /** getPluralKey: the plural category of `count` in `locale`. */
  function PluralKey(locale: string, count: int): (key: string)
    ensures key in {"one", "few", "many", "other"}
  {
    if locale == "en" then
      (if count == 1 then "one" else "other")
    else if locale == "ru" then
      var lastTwo := JsRem(count, 100);
      var lastOne := JsRem(count, 10);
      if 11 <= lastTwo <= 19 then "many"
      else if lastOne == 1 then "one"
      else if 2 <= lastOne <= 4 then "few"
      else "many"
    else "other"
  }

  /** English has two forms: "one" for exactly one, "other" for every other count. */
  lemma EnglishPlural(count: int)
    ensures PluralKey("en", count) in {"one", "other"}
    ensures PluralKey("en", count) == "one" <==> count == 1
  {
  }

  /** The Russian cardinal plural rule of the Unicode CLDR for a whole number
      `n`: "one" for n mod 10 = 1 unless n mod 100 = 11, "few" for n mod 10 in
      2..4 unless n mod 100 in 12..14, "many" otherwise. */
  function RussianCldr(n: nat): string {
    if n % 10 == 1 && n % 100 != 11 then "one"
    else if 2 <= n % 10 <= 4 && !(12 <= n % 100 <= 14) then "few"
    else "many"
  }

  /** For every count that is not negative the Russian branch is the CLDR rule. */
  lemma RussianPluralIsCldr(n: nat)
    ensures PluralKey("ru", n) == RussianCldr(n)
  {
    assert JsRem(n, 100) == n % 100 && JsRem(n, 10) == n % 10;
    LastDigitOfLastTwo(n);
  }

  /** The last digit of a number is the last digit of its last two digits. */
  lemma LastDigitOfLastTwo(n: nat)
    ensures n % 10 == n % 100 % 10
  {
    var q, r := n / 100, n % 100;
    assert n == 10 * (10 * q + r / 10) + r % 10;
  }

  /** A few Russian counts: 11 and 25 take "many", 21 takes "one", 22 takes "few". */
  lemma RussianExamples()
    ensures PluralKey("ru", 11) == "many" && PluralKey("ru", 21) == "one"
    ensures PluralKey("ru", 22) == "few" && PluralKey("ru", 25) == "many"
  {
  }

  /** Any locale other than English and Russian has the single form "other". */
  lemma OtherLocalePlural(locale: string, count: int)
    requires locale != "en" && locale != "ru"
    ensures PluralKey(locale, count) == "other"
  {
  }

  // ---------------------------------------------------------------------
  // Dotted keys
  // ---------------------------------------------------------------------

  /** `key.split('.')`: the pieces between dots, empty pieces included; the
      empty key gives one empty piece. */
  function Split(s: string): (parts: seq<string>)
    ensures |parts| >= 1
    ensures forall i :: 0 <= i < |parts| ==> '.' !in parts[i]
  {
    if s == [] then [""]
    else
      var rest := Split(s[1..]);
      if s[0] == '.' then [""] + rest
      else [[s[0]] + rest[0]] + rest[1..]
  }

  /** `parts.join('.')`. */
  function Join(parts: seq<string>): string
    requires |parts| >= 1
  {
    if |parts| == 1 then parts[0] else parts[0] + "." + Join(parts[1..])
  }

  /** Joining the pieces of a key gives the key back. */
  lemma {:induction false} JoinSplit(s: string)
    ensures Join(Split(s)) == s
  {
    if s != [] {
      var rest := Split(s[1..]);
      JoinSplit(s[1..]);
      if s[0] != '.' {
        var parts := [[s[0]] + rest[0]] + rest[1..];
        assert parts[1..] == rest[1..];
        if |rest| > 1 {
          assert Join(rest) == rest[0] + "." + Join(rest[1..]);
        }
      }
    }
  }

  /** Splitting a dot-free word followed by a dot and more text. */
  lemma {:induction false} SplitWord(w: string, s: string)
    requires '.' !in w
    ensures Split(w + "." + s) == [w] + Split(s)
    ensures Split(w) == [w]
  {
    if w != [] {
      SplitWord(w[1..], s);
      assert (w + "." + s)[1..] == w[1..] + "." + s;
      assert [w[0]] + w[1..] == w;
    } else {
      assert w + "." + s == ['.'] + s;
    }
  }

  /** Splitting joined dot-free pieces gives the pieces back. */
  lemma {:induction false} SplitJoin(parts: seq<string>)
    requires |parts| >= 1 && forall i :: 0 <= i < |parts| ==> '.' !in parts[i]
    ensures Split(Join(parts)) == parts
  {
    if |parts| == 1 {
      SplitWord(parts[0], "");
    } else {
      SplitJoin(parts[1..]);
      SplitWord(parts[0], Join(parts[1..]));
    }
  }

  // ---------------------------------------------------------------------
  // The message tree and key lookup
  // ---------------------------------------------------------------------

  /** A node of a locale's message file: a text or a table of named entries. */
  datatype Json = Text(s: string) | Table(entries: map<string, Json>)

  /** `value?.[k]`: the entry `k` of a table; on a text, the one-character
      string at `k` when `k` is a canonical index below its length; undefined
      otherwise. */
  function Step(value: Option<Json>, k: string): (r: Option<Json>)
    ensures value.None? ==> r.None?
    ensures value.Some? && value.value.Table? ==>
              (r.Some? <==> k in value.value.entries) &&
              (r.Some? ==> r.value == value.value.entries[k])
    ensures value.Some? && value.value.Text? ==>
              (r.Some? <==> IndexKey(k).Some? && IndexKey(k).value < |value.value.s|) &&
              (r.Some? ==> r.value == Text([value.value.s[IndexKey(k).value]]))
  {
    match value
    case None => None
    case Some(Table(entries)) => if k in entries then Some(entries[k]) else None
    case Some(Text(text)) =>
      match IndexKey(k)
      case Some(i) => if i < |text| then Some(Text([text[i]])) else None
      case None => None
  }

  /** A table `{w: text}` looked up by "w.0" reaches the first character of
      the text, the string's own index property: for `{greeting: "Hello"}`
      and "greeting.0", `t` returns "H" rather than the key. */
  lemma FirstCharacterKey(w: string, text: string)
    requires '.' !in w && text != []
    ensures Resolve(Some(Table(map[w := Text(text)])), Split(w + ".0")) == Some(Text([text[0]]))
  {
    var messages := Table(map[w := Text(text)]);
    assert Split(w + ".0") == [w] + [Decimal(0)] by {
      SplitWord(w, "0");
      SplitWord("0", "");
      assert w + "." + "0" == w + ".0";
      assert Decimal(0) == "0";
    }
    assert Resolve(Some(messages), [w]) == Some(Text(text)) by {
      assert [w][..0] == [];
    }
    CharacterOfText(messages, [w], text, 0);
  }

  /** Indexing a text that a path reaches by the decimal form of a position
      below its length reaches the character there. */
  lemma CharacterOfText(messages: Json, path: seq<string>, text: string, n: nat)
    requires Resolve(Some(messages), path) == Some(Text(text)) && n < |text|
    ensures Resolve(Some(messages), path + [Decimal(n)]) == Some(Text([text[n]]))
  {
    IndexKeyOfDecimal(n);
    assert (path + [Decimal(n)])[..|path|] == path;
  }

  /** Where the path `path` leads from `value`, one step per piece. */
  function Resolve(value: Option<Json>, path: seq<string>): Option<Json> {
    if path == [] then value else Step(Resolve(value, path[..|path| - 1]), path[|path| - 1])
  }

  /** Following a path in two parts is following the whole path. */
  lemma {:induction false} ResolveAppend(value: Option<Json>, p: seq<string>, q: seq<string>)
    ensures Resolve(Resolve(value, p), q) == Resolve(value, p + q)
  {
    if q != [] {
      ResolveAppend(value, p, q[..|q| - 1]);
      assert (p + q)[..|p + q| - 1] == p + q[..|q| - 1];
      assert (p + q)[|p + q| - 1] == q[|q| - 1];
    } else {
      assert p + q == p;
    }
  }

  /** Once the path leaves the tree, it never comes back. */
  lemma {:induction false} ResolveMissing(path: seq<string>)
    ensures Resolve(None, path).None?
  {
    if path != [] {
      ResolveMissing(path[..|path| - 1]);
    }
  }

  /** The walk of `t` down the key path, reassigning `value` step by step. */
  method Lookup(messages: Json, keys: seq<string>) returns (value: Option<Json>)
    ensures value == Resolve(Some(messages), keys)
  {
    value := Some(messages);
    for i := 0 to |keys|
      invariant value == Resolve(Some(messages), keys[..i])
    {
      assert keys[..i + 1][..i] == keys[..i];
      value := Step(value, keys[i]);
    }
    assert keys[..|keys|] == keys;
  }

  // ---------------------------------------------------------------------
  // Placeholders
  // ---------------------------------------------------------------------

  /** A parameter value: a string or a (whole) number. */
  datatype Param = Str(s: string) | Num(n: int)

  /** The characters of the regular expression class `\w`. */
  predicate IsWordChar(c: char) {
    'a' <= c <= 'z' || 'A' <= c <= 'Z' || '0' <= c <= '9' || c == '_'
  }

  /** The length of the run of word characters that starts `s`. */
  function WordRun(s: string): (n: nat)
    ensures n <= |s|
    ensures forall i :: 0 <= i < n ==> IsWordChar(s[i])
    ensures n < |s| ==> !IsWordChar(s[n])
  {
    if s == [] || !IsWordChar(s[0]) then 0 else 1 + WordRun(s[1..])
  }

  /** The name of the placeholder `{{name}}` that `s` starts with, if any: two
      braces, one or more word characters, two braces. */
  function PlaceholderAt(s: string): (name: Option<string>)
    ensures name.Some? ==> |name.value| > 0 && |s| >= |name.value| + 4 &&
                           s[..|name.value| + 4] == "{{" + name.value + "}}" &&
                           forall i :: 0 <= i < |name.value| ==> IsWordChar(name.value[i])
  {
    if |s| >= 2 && s[..2] == "{{" then
      var n := WordRun(s[2..]);
      if n > 0 && |s| >= n + 4 && s[n + 2..n + 4] == "}}" then
        assert s[..n + 4] == s[..2] + s[2..n + 2] + s[n + 2..n + 4];
        Some(s[2..n + 2])
      else None
    else None
  }

  /** The decimal digit for `d`. */
  function Digit(d: nat): (c: char)
    requires d < 10
    ensures IsDigit(c) && DigitValue(c) == d
  {
    ('0' as int + d) as char
  }

  predicate IsDigit(c: char) {
    '0' <= c <= '9'
  }

  /** The number a decimal digit stands for. */
  function DigitValue(c: char): nat
    requires IsDigit(c)
  {
    c as int - '0' as int
  }

  /** The number a string of decimal digits spells. */
  function DigitsValue(k: string): nat
    requires forall i :: 0 <= i < |k| ==> IsDigit(k[i])
  {
    if k == [] then 0 else DigitsValue(k[..|k| - 1]) * 10 + DigitValue(k[|k| - 1])
  }

  /** The array index a property key names on a string: a non-empty run of
      decimal digits without a leading zero (other than "0" itself), i.e. a
      canonical numeric string of a whole number. */
  function IndexKey(k: string): Option<nat> {
    if k != [] && (forall i :: 0 <= i < |k| ==> IsDigit(k[i])) && (k[0] != '0' || |k| == 1)
    then Some(DigitsValue(k))
    else None
  }

  /** A digit string spelling 0 consists of zeros. */
  lemma {:induction false} ZeroDigits(k: string)
    requires forall i :: 0 <= i < |k| ==> IsDigit(k[i])
    requires DigitsValue(k) == 0
    ensures forall i :: 0 <= i < |k| ==> k[i] == '0'
  {
    if k != [] {
      var p := k[..|k| - 1];
      ZeroDigits(p);
      assert forall i :: 0 <= i < |p| ==> k[i] == p[i];
    }
  }

  /** The decimal form of a number is the canonical index key of that number. */
  lemma {:induction false} IndexKeyOfDecimal(n: nat)
    ensures IndexKey(Decimal(n)) == Some(n)
  {
    if n >= 10 {
      IndexKeyOfDecimal(n / 10);
      var p := Decimal(n / 10);
      var k := p + [Digit(n % 10)];
      assert Decimal(n) == k;
      assert k[..|k| - 1] == p;
      assert forall i :: 0 <= i < |p| ==> k[i] == p[i];
      assert DigitsValue(k) == DigitsValue(p) * 10 + n % 10;
    }
  }

  /** A canonical index key is the decimal form of the index it names. */
  lemma {:induction false} DecimalOfIndexKey(k: string)
    requires IndexKey(k).Some?
    ensures Decimal(IndexKey(k).value) == k
  {
    var n := DigitsValue(k);
    if |k| == 1 {
      assert k[..0] == [];
      assert DigitsValue(k[..0]) == 0;
      assert n == DigitValue(k[0]);
      assert k == [Digit(n)];
    } else {
      var p := k[..|k| - 1];
      IndexKeyPrefix(k);
      DecimalOfIndexKey(p);
      var last := k[|k| - 1];
      assert n / 10 == DigitsValue(p) && n % 10 == DigitValue(last);
      assert Digit(n % 10) == last;
      assert k == p + [last];
    }
  }

  /** A canonical index key of two or more digits is a canonical index key
      of a positive number followed by one more digit. */
  lemma IndexKeyPrefix(k: string)
    requires IndexKey(k).Some? && |k| > 1
    ensures IndexKey(k[..|k| - 1]) == Some(DigitsValue(k[..|k| - 1]))
    ensures DigitsValue(k[..|k| - 1]) > 0
  {
    var p := k[..|k| - 1];
    assert forall i :: 0 <= i < |p| ==> p[i] == k[i];
    if DigitsValue(p) == 0 {
      ZeroDigits(p);
    }
  }

  /** `n.toString()` for a whole number. */
  function Decimal(n: int): (s: string)
    ensures |s| > 0
    decreases if n < 0 then -n + 1 else n
  {
    if n < 0 then "-" + Decimal(-n)
    else if n < 10 then [Digit(n)]
    else Decimal(n / 10) + [Digit(n % 10)]
  }

  /** `params?.[name]?.toString()`, with "" standing for undefined. */
  function Shown(name: string, params: map<string, Param>): string {
    if name !in params then ""
    else match params[name]
      case Str(s) => s
      case Num(n) => Decimal(n)
  }

  /** What replaces `{{name}}`: the parameter's text, or the placeholder itself
      when that text is undefined or empty. */
  function Replacement(name: string, params: map<string, Param>): string {
    var shown := Shown(name, params);
    if shown == "" then "{{" + name + "}}" else shown
  }

  /** `text.replace(/\{\{(\w+)\}\}/g, ...)`: scans left to right, replacing
      each placeholder and copying every other character. */
  function Substitute(text: string, params: map<string, Param>): string
    decreases |text|
  {
    if text == [] then []
    else match PlaceholderAt(text)
      case Some(name) => Replacement(name, params) + Substitute(text[|name| + 4..], params)
      case None => [text[0]] + Substitute(text[1..], params)
  }

  /** Text in which no placeholder starts anywhere comes back unchanged. */
  lemma {:induction false} SubstituteNoPlaceholder(text: string, params: map<string, Param>)
    requires forall i :: 0 <= i < |text| ==> PlaceholderAt(text[i..]).None?
    ensures Substitute(text, params) == text
  {
    if text != [] {
      assert text[0..] == text;
      forall i | 0 <= i < |text| - 1
        ensures PlaceholderAt(text[1..][i..]).None?
      {
        assert text[1..][i..] == text[i + 1..];
      }
      SubstituteNoPlaceholder(text[1..], params);
    }
  }

  /** With every parameter absent or empty, each placeholder is kept verbatim,
      so the text comes back unchanged. */
  lemma {:induction false} SubstituteNothingToFill(text: string, params: map<string, Param>)
    requires forall k :: k in params ==> Shown(k, params) == ""
    ensures Substitute(text, params) == text
  {
    if text != [] {
      match PlaceholderAt(text)
      case Some(name) =>
        SubstituteNothingToFill(text[|name| + 4..], params);
        assert text == text[..|name| + 4] + text[|name| + 4..];
      case None =>
        SubstituteNothingToFill(text[1..], params);
        assert text == [text[0]] + text[1..];
    }
  }

  /** A lone placeholder with a value is replaced by that value. */
  lemma SubstituteOne(name: string, params: map<string, Param>)
    requires |name| > 0 && forall i :: 0 <= i < |name| ==> IsWordChar(name[i])
    requires Shown(name, params) != ""
    ensures Substitute("{{" + name + "}}", params) == Shown(name, params)
  {
    var text := "{{" + name + "}}";
    assert text[..2] == "{{";
    assert text[2..] == name + "}}";
    assert WordRun(name + "}}") == |name| by {
      WordRunOfWord(name, "}}");
    }
    assert text[2..|name| + 2] == name;
    assert text[|name| + 2..|name| + 4] == "}}";
    assert text[|name| + 4..] == [];
  }

  /** The word run of a word followed by a non-word character is the word. */
  lemma {:induction false} WordRunOfWord(w: string, rest: string)
    requires forall i :: 0 <= i < |w| ==> IsWordChar(w[i])
    requires rest != [] && !IsWordChar(rest[0])
    ensures WordRun(w + rest) == |w|
  {
    if w != [] {
      assert (w + rest)[1..] == w[1..] + rest;
      WordRunOfWord(w[1..], rest);
    } else {
      assert w + rest == rest;
    }
  }

  // ---------------------------------------------------------------------
  // t
  // ---------------------------------------------------------------------

  /** The parameters carry a numeric `count`. */
  predicate CountIsNumber(params: map<string, Param>) {
    "count" in params && params["count"].Num?
  }

  /** JavaScript truthiness of a message node: a non-empty text or any table. */
  predicate Truthy(v: Json) {
    v.Table? || v.s != ""
  }

  /** The plural variant `<base>_<category>` beside the entry `keys` names. */
  function PluralSibling(messages: Json, keys: seq<string>, locale: string, count: int): Option<Json>
    requires |keys| >= 1
  {
    Step(Resolve(Some(messages), keys[..|keys| - 1]),
         keys[|keys| - 1] + "_" + PluralKey(locale, count))
  }

  /** The plural variant is the entry found by the key with its last piece
      renamed to `<base>_<category>`. */
  lemma PluralSiblingPath(messages: Json, keys: seq<string>, locale: string, count: int)
    requires |keys| >= 1
    ensures PluralSibling(messages, keys, locale, count) ==
            Resolve(Some(messages), keys[..|keys| - 1] + [keys[|keys| - 1] + "_" + PluralKey(locale, count)])
  {
    var parent := keys[..|keys| - 1];
    var sibling := parent + [keys[|keys| - 1] + "_" + PluralKey(locale, count)];
    assert sibling[..|sibling| - 1] == parent;
  }

  /** t: the translation of `key` in the message tree `messages` of `locale`.
      None is the TypeError `t` throws when the plural variant it picked is a
      table rather than a text. */
  method Translate(messages: Json, locale: string, key: string, params: map<string, Param>)
    returns (r: Option<string>)
    ensures var base := Resolve(Some(messages), Split(key));
            !(base.Some? && base.value.Text?) ==> r == Some(key)
    ensures var base := Resolve(Some(messages), Split(key));
            base.Some? && base.value.Text? && !CountIsNumber(params) ==>
              r == Some(Substitute(base.value.s, params))
    ensures var base := Resolve(Some(messages), Split(key));
            var sibling := PluralSibling(messages, Split(key), locale, if CountIsNumber(params) then params["count"].n else 0);
            base.Some? && base.value.Text? && CountIsNumber(params) ==>
              (sibling.Some? && sibling.value.Text? && sibling.value.s != "" ==> r == Some(Substitute(sibling.value.s, params))) &&
              (sibling.Some? && sibling.value.Table? ==> r.None?) &&
              (!(sibling.Some? && Truthy(sibling.value)) ==> r == Some(Substitute(base.value.s, params)))
  {
    var keys := Split(key);
    var value := Lookup(messages, keys);
    if !(value.Some? && value.value.Text?) {
      return Some(key);
    }
    if CountIsNumber(params) {
      var count := params["count"].n;
      var pluralKey := PluralKey(locale, count);
      var parentKeys := keys[..|keys| - 1];
      var baseKey := keys[|keys| - 1];
      var pluralValue := Lookup(messages, parentKeys);
      var pluralKeyPath := baseKey + "_" + pluralKey;
      var variant := Step(pluralValue, pluralKeyPath);
      if variant.Some? && Truthy(variant.value) {
        value := variant;
      }
    }
    if value.value.Table? {
      return None;
    }
    return Some(Substitute(value.value.s, params));
  }
}
