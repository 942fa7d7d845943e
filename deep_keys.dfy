/**
 * The deep-link key grammar `local.Type.rest` (sgsession/entity.py:252 and
 * sgsession/entity.py:304): the regular expressions `^(\w+)\.([A-Z]\w+)\.(.+)$`
 * (reading) and `^(\w+)\.([A-Z]\w+)\.(.*)$` (merging), matched with `re.match`.
 */
module DeepKeys {
  import opened Wrappers
  import opened Strings

  /** One hop of a deep key: read `local`, require its `type` to be `typeName`, continue with `rest`. */
  datatype Hop = Hop(local: string, typeName: string, rest: string)

  /** The text a hop is written as. */
  function Join(h: Hop): string {
    h.local + "." + h.typeName + "." + h.rest
  }

  /** The key of the sibling id field, `'%s.%s.id' % (field, type_)`. */
  function IdKey(local: string, typeName: string): string {
    local + "." + typeName + ".id"
  }

  /** A type name `[A-Z]\w+`: an upper-case letter and at least one more word character. */
  predicate IsTypeName(t: string) {
    |t| >= 2 && IsUpper(t[0]) && IsWord(t)
  }

  /** A hop the pattern can produce; `allowEmptyRest` selects `(.*)` over `(.+)`. */
  predicate WellFormed(h: Hop, allowEmptyRest: bool) {
    && |h.local| >= 1 && IsWord(h.local)
    && IsTypeName(h.typeName)
    && '\n' !in h.rest
    && (allowEmptyRest || h.rest != [])
  }

  /** Length of the longest run of word characters starting at `i`. */
  function WordRun(s: string, i: nat): (n: nat)
    requires i <= |s|
    ensures i + n <= |s|
    ensures forall j :: i <= j < i + n ==> IsWordChar(s[j])
    ensures i + n == |s| || !IsWordChar(s[i + n])
    decreases |s| - i
  {
    if i < |s| && IsWordChar(s[i]) then 1 + WordRun(s, i + 1) else 0
  }

  /**
   * The tail group followed by `$`: `.` stops at a newline, and `$` also
   * matches just before a newline that ends the string.
   */
  function AnchoredTail(tail: string, allowEmptyRest: bool): (r: Option<string>)
    ensures r.Some? ==> '\n' !in r.value && (allowEmptyRest || r.value != [])
    ensures r.Some? ==> tail == r.value || tail == r.value + "\n"
  {
    var body := if |tail| > 0 && tail[|tail| - 1] == '\n' then tail[..|tail| - 1] else tail;
    assert tail == body || tail == body + "\n";
    if '\n' in body || (body == [] && !allowEmptyRest) then None else Some(body)
  }

  /** `re.match` of the deep-key pattern against `s`, giving its three groups. */
  function ParseHop(s: string, allowEmptyRest: bool): (r: Option<Hop>)
    ensures r.Some? ==> WellFormed(r.value, allowEmptyRest)
    ensures r.Some? ==> s == Join(r.value) || s == Join(r.value) + "\n"
    ensures r.Some? ==> |r.value.rest| < |s|
  {
    var a := WordRun(s, 0);
    if a == 0 || a == |s| || s[a] != '.' then None
    else if a + 1 == |s| || !IsUpper(s[a + 1]) then None
    else
      var b := WordRun(s, a + 2);
      if b == 0 || a + 2 + b == |s| || s[a + 2 + b] != '.' then None
      else HopAt(s, a, b, allowEmptyRest)
  }

  /** The groups once `local` is `s[..a]` and the type name `s[a + 1..a + 2 + b]`: the tail decides. */
  function HopAt(s: string, a: nat, b: nat, allowEmptyRest: bool): (r: Option<Hop>)
    requires 0 < a && 0 < b && a + 3 + b <= |s|
    requires forall j :: 0 <= j < a ==> IsWordChar(s[j])
    requires forall j :: a + 2 <= j < a + 2 + b ==> IsWordChar(s[j])
    requires s[a] == '.' && IsUpper(s[a + 1]) && s[a + 2 + b] == '.'
    ensures r.Some? ==> WellFormed(r.value, allowEmptyRest)
    ensures r.Some? ==> s == Join(r.value) || s == Join(r.value) + "\n"
    ensures r.Some? ==> |r.value.rest| < |s|
  {
    match AnchoredTail(s[a + 3 + b..], allowEmptyRest)
    case None => None
    case Some(rest) =>
      HopShape(s, a, b, rest, allowEmptyRest);
      Some(Hop(s[..a], s[a + 1..a + 2 + b], rest))
  }

  lemma HopShape(s: string, a: nat, b: nat, rest: string, allowEmptyRest: bool)
    requires 0 < a && 0 < b && a + 3 + b <= |s|
    requires forall j :: 0 <= j < a ==> IsWordChar(s[j])
    requires forall j :: a + 2 <= j < a + 2 + b ==> IsWordChar(s[j])
    requires s[a] == '.' && IsUpper(s[a + 1]) && s[a + 2 + b] == '.'
    requires '\n' !in rest && (allowEmptyRest || rest != [])
    requires s[a + 3 + b..] == rest || s[a + 3 + b..] == rest + "\n"
    ensures var h := Hop(s[..a], s[a + 1..a + 2 + b], rest);
      WellFormed(h, allowEmptyRest) && (s == Join(h) || s == Join(h) + "\n") && |rest| < |s|
  {
    var h := Hop(s[..a], s[a + 1..a + 2 + b], rest);
    assert IsWord(h.local);
    assert IsWord(h.typeName) by {
      forall j | 0 <= j < |h.typeName| ensures IsWordChar(h.typeName[j]) {
        if j > 0 { assert h.typeName[j] == s[a + 1 + j]; }
      }
    }
    assert s == s[..a] + "." + s[a + 1..a + 2 + b] + "." + s[a + 3 + b..];
  }

  /** A key without a dot is never a deep key. */
  lemma NoDotNoHop(s: string, allowEmptyRest: bool)
    requires '.' !in s
    ensures ParseHop(s, allowEmptyRest) == None
  {
  }

  lemma {:induction false} WordRunOfWord(s: string, i: nat, n: nat)
    requires i + n <= |s|
    requires forall j :: i <= j < i + n ==> IsWordChar(s[j])
    requires i + n == |s| || !IsWordChar(s[i + n])
    ensures WordRun(s, i) == n
    decreases n
  {
    if n > 0 {
      WordRunOfWord(s, i + 1, n - 1);
    }
  }

  lemma JoinLayout(h: Hop)
    requires |h.local| >= 1 && |h.typeName| >= 2
    ensures var s, a, b := Join(h), |h.local|, |h.typeName| - 1;
      && a + 3 + b <= |s|
      && s[..a] == h.local && s[a] == '.' && s[a + 1..a + 2 + b] == h.typeName
      && s[a + 2 + b] == '.' && s[a + 3 + b..] == h.rest
      && (forall j :: 0 <= j < a ==> s[j] == h.local[j])
      && (forall j :: a + 1 <= j < a + 2 + b ==> s[j] == h.typeName[j - a - 1])
  {
  }

  lemma JoinScan(h: Hop, allowEmptyRest: bool)
    requires WellFormed(h, allowEmptyRest)
    ensures var s, a, b := Join(h), |h.local|, |h.typeName| - 1;
      && a + 3 + b <= |s|
      && WordRun(s, 0) == a && s[a] == '.' && IsUpper(s[a + 1])
      && WordRun(s, a + 2) == b && s[a + 2 + b] == '.'
      && s[..a] == h.local && s[a + 1..a + 2 + b] == h.typeName && s[a + 3 + b..] == h.rest
  {
    var s := Join(h);
    var a, b := |h.local|, |h.typeName| - 1;
    JoinLayout(h);
    WordRunOfWord(s, 0, a);
    assert IsWordChar(h.typeName[0]);
    WordRunOfWord(s, a + 2, b);
  }

  /** The match succeeds when the three groups sit at `[..a]`, `[a + 1..a + 2 + b]` and the tail. */
  lemma ParseAt(s: string, a: nat, b: nat, rest: string, allowEmptyRest: bool)
    requires 0 < a && 0 < b && a + 3 + b <= |s|
    requires WordRun(s, 0) == a && s[a] == '.' && IsUpper(s[a + 1])
    requires WordRun(s, a + 2) == b && s[a + 2 + b] == '.'
    requires AnchoredTail(s[a + 3 + b..], allowEmptyRest) == Some(rest)
    ensures ParseHop(s, allowEmptyRest) == Some(Hop(s[..a], s[a + 1..a + 2 + b], rest))
  {
    var r := ParseHop(s, allowEmptyRest);
    assert r == match AnchoredTail(s[a + 3 + b..], allowEmptyRest)
        case None => None
        case Some(rest) => Some(Hop(s[..a], s[a + 1..a + 2 + b], rest));
  }

  /** Parsing what `Join` writes gives the hop back. */
  lemma ParseJoin(h: Hop, allowEmptyRest: bool)
    requires WellFormed(h, allowEmptyRest)
    ensures ParseHop(Join(h), allowEmptyRest) == Some(h)
  {
    var s, a, b := Join(h), |h.local|, |h.typeName| - 1;
    JoinScan(h, allowEmptyRest);
    assert AnchoredTail(h.rest, allowEmptyRest) == Some(h.rest);
    assert Hop(s[..a], s[a + 1..a + 2 + b], h.rest) == h;
    ParseAt(s, a, b, h.rest, allowEmptyRest);
  }

  /** A word (no dot) never parses as a deep key; used for `local` groups. */
  lemma WordIsNoHop(s: string, allowEmptyRest: bool)
    requires IsWord(s)
    ensures ParseHop(s, allowEmptyRest) == None
  {
    if '.' in s {
      var i :| 0 <= i < |s| && s[i] == '.';
      assert IsWordChar(s[i]);
    }
  }
}
