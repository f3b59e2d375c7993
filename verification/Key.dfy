/** Alarm keys and the XPath predicates they print to (src/alarms/Key.h, src/alarms/Key.cpp). */
module Key {
  import opened Wrappers

  /** A qualified YANG identity name.  YANG identifiers contain no quotes (RFC 7950, section 6.2). */
  type IdentityName = id: string | '\'' !in id && '\"' !in id witness ""

  datatype AlarmType = AlarmType(id: IdentityName, qualifier: string) {
    function XPathIndex(): string {
      Index(TYPE_ID, ['\''] + id + ['\'']) + Index(TYPE_QUALIFIER, ['\''] + qualifier + ['\''])
    }
  }

  const TYPE_ID := "[alarm-type-id="
  const TYPE_QUALIFIER := "[alarm-type-qualifier="
  const RESOURCE := "[resource="

  /** One list-key predicate: its opening text, a quoted literal and the closing bracket. */
  function Index(head: string, literal: string): string {
    head + literal + "]"
  }

  datatype InstanceKey = InstanceKey(alarmType: AlarmType, resource: string) {
    /** `EscapeListKey` throws on mixed quotes; the exception passes through to the caller. */
    function XPathIndex(): Result<string, KeyError> {
      match EscapeListKey(resource)
      case Failure(e) => Failure(e)
      case Success(escaped) => Success(alarmType.XPathIndex() + Index(RESOURCE, escaped))
    }

    /** The resource can be written as an XPath literal. */
    predicate Printable() {
      !('\'' in resource && '\"' in resource)
    }
  }

  datatype KeyError = MixedQuotes

  /** Quotes a string with the kind of quote it does not contain. */
  function EscapeListKey(str: string): (r: Result<string, KeyError>)
    ensures r.Success? <==> '\'' !in str || '\"' !in str
    ensures r.Success? ==>
              exists quote :: quote in {'\'', '\"'} && quote !in str && r.value == [quote] + str + [quote]
  {
    var singleQuotes := '\'' in str;
    var doubleQuotes := '\"' in str;
    if singleQuotes && doubleQuotes then
      Failure(MixedQuotes)
    else if singleQuotes then
      Success(['\"'] + str + ['\"'])
    else
      Success(['\''] + str + ['\''])
  }

  /** Printing fails on mixed quotes in the resource and on nothing else. */
  lemma {:induction false} PrintsExactlyWhenPrintable(key: InstanceKey)
    ensures key.XPathIndex().Success? <==> key.Printable()
  {
  }

  /** The printed form, letter by letter: the type in single quotes, always. */
  lemma {:induction false} PrintedType(alarmType: AlarmType)
    ensures alarmType.XPathIndex() ==
            "[alarm-type-id='" + alarmType.id + "']" + ("[alarm-type-qualifier='" + alarmType.qualifier + "']")
  {
    assert Index(TYPE_ID, ['\''] + alarmType.id + ['\'']) == "[alarm-type-id='" + alarmType.id + "']";
    assert Index(TYPE_QUALIFIER, ['\''] + alarmType.qualifier + ['\'']) ==
           "[alarm-type-qualifier='" + alarmType.qualifier + "']";
  }

  /** The resource follows in single quotes, or in double quotes if it has a single one; with both there is no printed
      form. */
  lemma {:induction false} PrintedForm(key: InstanceKey)
    ensures '\'' !in key.resource ==>
              key.XPathIndex() == Success(key.alarmType.XPathIndex() + ("[resource='" + key.resource + "']"))
    ensures '\'' in key.resource && '\"' !in key.resource ==>
              key.XPathIndex() == Success(key.alarmType.XPathIndex() + ("[resource=\"" + key.resource + "\"]"))
    ensures '\'' in key.resource && '\"' in key.resource ==> key.XPathIndex() == Failure(MixedQuotes)
  {
    hide AlarmType.XPathIndex;
    if '\'' !in key.resource {
      assert Index(RESOURCE, ['\''] + key.resource + ['\'']) == "[resource='" + key.resource + "']";
    } else if '\"' !in key.resource {
      assert Index(RESOURCE, ['\"'] + key.resource + ['\"']) == "[resource=\"" + key.resource + "\"]";
    }
  }

  // ---------- Splitting at a quote ----------

  /** The first occurrence of a separator determines both parts. */
  lemma {:induction false} SplitAtFirst(a: string, x: string, b: string, y: string, c: char)
    requires c !in a && c !in b
    requires a + [c] + x == b + [c] + y
    ensures a == b && x == y
  {
    var s := a + [c] + x;
    assert forall i :: 0 <= i < |a| ==> s[i] == a[i];
    assert forall i :: 0 <= i < |b| ==> s[i] == b[i];
    assert s[|a|] == c && s[|b|] == c;
    assert |a| == |b|;
    assert a == s[..|a|] && b == s[..|b|];
    assert x == s[|a| + 1..] && y == s[|b| + 1..];
  }

  /** The last occurrence of a separator determines both parts. */
  lemma {:induction false} SplitAtLast(x: string, a: string, y: string, b: string, c: char)
    requires c !in a && c !in b
    requires x + [c] + a == y + [c] + b
    ensures x == y && a == b
  {
    var s := x + [c] + a;
    assert forall i :: |x| < i < |s| ==> s[i] == a[i - |x| - 1];
    assert forall i :: |y| < i < |s| ==> s[i] == b[i - |y| - 1];
    assert s[|x|] == c && s[|y|] == c;
    assert |x| == |y|;
    assert x == s[..|x|] && y == s[..|y|];
    assert a == s[|x| + 1..] && b == s[|y| + 1..];
  }

  /** Equal suffixes can be cancelled. */
  lemma {:induction false} CancelSuffix(a: string, b: string, tail: string)
    requires a + tail == b + tail
    ensures a == b
  {
    assert |a| == |b|;
    assert a == (a + tail)[..|a|] && b == (b + tail)[..|b|];
  }

  /** Equal prefixes can be cancelled. */
  lemma {:induction false} CancelPrefix(head: string, a: string, b: string)
    requires head + a == head + b
    ensures a == b
  {
    assert a == (head + a)[|head|..] && b == (head + b)[|head|..];
  }

  /** The quoted resource at the right end of a printed key determines the resource and what precedes it. */
  lemma {:induction false} QuotedTailInjective(x: string, q: char, r: string, y: string, q': char, r': string)
    requires q !in r && q' !in r'
    requires x + [q] + r + [q] == y + [q'] + r' + [q']
    ensures x == y && r == r' && q == q'
  {
    var s, s' := x + [q] + r + [q], y + [q'] + r' + [q'];
    assert s[|s| - 1] == q && s'[|s'| - 1] == q';
    assert x + [q] + r == s[..|s| - 1] && y + [q'] + r' == s'[..|s'| - 1];
    SplitAtLast(x, r, y, r', q);
  }

  /** Two printed predicates determine both values: the first holds no quote, the second is what remains. */
  lemma {:induction false} TwoIndexesInjective(h: string, id: string, id': string, h2: string, v: string, v': string)
    requires '\'' !in id && '\'' !in id'
    requires Index(h, ['\''] + id + ['\'']) + Index(h2, ['\''] + v + ['\''])
          == Index(h, ['\''] + id' + ['\'']) + Index(h2, ['\''] + v' + ['\''])
    ensures id == id' && v == v'
  {
    var tail := ['\''] + "]";
    var head := h + ['\''];
    var mid := "]" + (h2 + ['\'']);
    var s, s' := mid + v + tail, mid + v' + tail;
    assert Index(h, ['\''] + id + ['\'']) + Index(h2, ['\''] + v + ['\'']) == head + (id + ['\''] + s);
    assert Index(h, ['\''] + id' + ['\'']) + Index(h2, ['\''] + v' + ['\'']) == head + (id' + ['\''] + s');
    CancelPrefix(head, id + ['\''] + s, id' + ['\''] + s');
    SplitAtFirst(id, s, id', s', '\'');
    CancelSuffix(mid + v, mid + v', tail);
    CancelPrefix(mid, v, v');
  }

  /** The printed resource at the right end determines the resource and what precedes it. */
  lemma {:induction false} LastIndexInjective(x: string, q: char, r: string, y: string, q': char, r': string, h: string)
    requires q !in r && q' !in r'
    requires x + Index(h, [q] + r + [q]) == y + Index(h, [q'] + r' + [q'])
    ensures x == y && r == r'
  {
    var p, p' := x + h + [q] + r + [q], y + h + [q'] + r' + [q'];
    assert x + Index(h, [q] + r + [q]) == p + "]" && y + Index(h, [q'] + r' + [q']) == p' + "]";
    CancelSuffix(p, p', "]");
    QuotedTailInjective(x + h, q, r, y + h, q', r');
    CancelSuffix(x, y, h);
  }

  /** Distinct keys print differently, even when a qualifier contains quotes and brackets. */
  lemma {:induction false} KeyPrintingInjective(k: InstanceKey, k': InstanceKey)
    requires k.XPathIndex().Success? && k.XPathIndex() == k'.XPathIndex()
    ensures k == k'
  {
    hide Index;
    var q :| q in {'\'', '\"'} && q !in k.resource &&
             EscapeListKey(k.resource).value == [q] + k.resource + [q];
    var q' :| q' in {'\'', '\"'} && q' !in k'.resource &&
              EscapeListKey(k'.resource).value == [q'] + k'.resource + [q'];
    LastIndexInjective(k.alarmType.XPathIndex(), q, k.resource, k'.alarmType.XPathIndex(), q', k'.resource, RESOURCE);
    TwoIndexesInjective(TYPE_ID, k.alarmType.id, k'.alarmType.id,
                        TYPE_QUALIFIER, k.alarmType.qualifier, k'.alarmType.qualifier);
  }

  // ---------- Reading a printed key back, left to right ----------

  /** Consumes a fixed text at the start of the input. */
  function Expect(text: string, s: string): Option<string> {
    if text <= s then Some(s[|text|..]) else None
  }

  /** Consumes input up to and including the first occurrence of a character. */
  function Until(s: string, c: char): (r: Option<(string, string)>)
    ensures r.Some? ==> c !in r.value.0 && s == r.value.0 + [c] + r.value.1
    ensures r.None? <==> c !in s
  {
    if s == [] then None
    else if s[0] == c then Some(([], s[1..]))
    else match Until(s[1..], c)
      case None => None
      case Some((before, after)) =>
        assert s == [s[0]] + s[1..];
        Some(([s[0]] + before, after))
  }

  /** Reads one quoted literal with either kind of quote. */
  function Literal(s: string): Option<(string, string)> {
    if s != [] && (s[0] == '\'' || s[0] == '\"') then Until(s[1..], s[0]) else None
  }

  /** Reads one list-key predicate. */
  function Predicate(head: string, s: string): Option<(string, string)> {
    match Expect(head, s)
    case None => None
    case Some(rest) =>
      match Literal(rest)
      case None => None
      case Some((value, after)) =>
        match Expect("]", after)
        case None => None
        case Some(end) => Some((value, end))
  }

  /** Reads the three predicates of a list key, in the order they are printed. */
  function ParseKey(s: string): Option<InstanceKey> {
    match Predicate(TYPE_ID, s)
    case None => None
    case Some((id, s1)) =>
      match Predicate(TYPE_QUALIFIER, s1)
      case None => None
      case Some((qualifier, s2)) =>
        match Predicate(RESOURCE, s2)
        case None => None
        case Some((resource, s3)) =>
          if s3 == [] && '\'' !in id && '\"' !in id
          then Some(InstanceKey(AlarmType(id, qualifier), resource)) else None
  }

  lemma {:induction false} PredicateReadsBack(head: string, q: char, value: string, rest: string)
    requires q in {'\'', '\"'} && q !in value
    ensures Predicate(head, Index(head, [q] + value + [q]) + rest) == Some((value, rest))
  {
    var tail := "]" + rest;
    var s := Index(head, [q] + value + [q]) + rest;
    assert s == head + ([q] + (value + [q] + tail));
    assert Expect(head, s) == Some([q] + (value + [q] + tail));
    assert ([q] + (value + [q] + tail))[1..] == value + [q] + tail;
    assert (value + [q] + tail)[|value|] == q;
    var u := Until(value + [q] + tail, q);
    SplitAtFirst(u.value.0, u.value.1, value, tail, q);
    assert Expect("]", tail) == Some(rest);
  }

  /** A single-quoted literal is never read as a value that holds a single quote. */
  lemma {:induction false} SingleQuotedValue(head: string, rest: string)
    ensures var r := Predicate(head, head + (['\''] + rest)); r.Some? ==> '\'' !in r.value.0
  {
    assert (head + (['\''] + rest))[|head|..] == ['\''] + rest;
  }

  /** How the predicates of a printed key are read, one after the other. */
  lemma {:induction false} ReadPredicates(h1: string, id: string, h2: string, v: string, h3: string, q: char,
                                          resource: string)
    requires q in {'\'', '\"'} && q !in resource && '\'' !in id
    ensures var p3 := Index(h3, [q] + resource + [q]);
            var p2 := Index(h2, ['\''] + v + ['\'']) + p3;
            && Predicate(h1, Index(h1, ['\''] + id + ['\'']) + Index(h2, ['\''] + v + ['\'']) + p3) == Some((id, p2))
            && ('\'' !in v ==> Predicate(h2, p2) == Some((v, p3)) && Predicate(h3, p3) == Some((resource, [])))
            && ('\'' in v && Predicate(h2, p2).Some? ==> Predicate(h2, p2).value.0 != v)
  {
    var p3 := Index(h3, [q] + resource + [q]);
    var i2 := Index(h2, ['\''] + v + ['\'']);
    var i1 := Index(h1, ['\''] + id + ['\'']);
    assert i1 + i2 + p3 == i1 + (i2 + p3);
    PredicateReadsBack(h1, '\'', id, i2 + p3);
    if '\'' !in v {
      PredicateReadsBack(h2, '\'', v, p3);
      PredicateReadsBack(h3, q, resource, []);
      assert p3 + [] == p3;
    } else {
      var rest := v + ['\''] + "]" + p3;
      assert i2 + p3 == h2 + (['\''] + rest);
      SingleQuotedValue(h2, rest);
    }
  }

  /** A left-to-right reader inverts the printer exactly when the qualifier has no single quote,
      because the printer does not escape quotes in the qualifier. */
  lemma {:induction false} ParseInvertsPrinting(key: InstanceKey)
    requires key.Printable()
    ensures ParseKey(key.XPathIndex().value) == Some(key) <==> '\'' !in key.alarmType.qualifier
  {
    var resource := key.resource;
    var q :| q in {'\'', '\"'} && q !in resource && EscapeListKey(resource).value == [q] + resource + [q];
    ReadPredicates(TYPE_ID, key.alarmType.id, TYPE_QUALIFIER, key.alarmType.qualifier, RESOURCE, q, resource);
  }
}
