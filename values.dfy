/** The Python values the web application stores in its documents, sessions and
    configuration: JSON-shaped data, Python's `==` and truthiness on it, a mutable
    dictionary object, and the exceptions the modelled code raises. */
module Values {

  datatype Option<+T> = None | Some(value: T)

  /** The exceptions (and Flask aborts) raised by the modelled code. */
  datatype Error =
    | KeyError(key: string)
    | AttributeError(name: string)
    | ValueError(message: string)
    | ValidationError
    | Abort(status: int)

  datatype Result<+T> = Success(value: T) | Failure(error: Error)

  /** A JSON-compatible Python value (floats are not modelled). */
  datatype Value =
    | Null
    | Bool(b: bool)
    | Int(i: int)
    | Str(s: string)
    | List(items: seq<Value>)
    | Object(fields: map<string, Value>)

  /** A document, a log entry or a configuration: a dict from strings to values. */
  type Doc = map<string, Value>

  /** Python's `==` on these values: structural, except that `bool` is a subclass
      of `int`, so that `True == 1` and `False == 0`, also inside lists and dicts. */
  predicate PyEq(a: Value, b: Value)
  {
    match (a, b)
    case (Bool(x), Int(n)) => n == (if x then 1 else 0)
    case (Int(n), Bool(x)) => n == (if x then 1 else 0)
    case (List(xs), List(ys)) =>
      |xs| == |ys| && forall i :: 0 <= i < |xs| ==> PyEq(xs[i], ys[i])
    case (Object(m), Object(n)) =>
      m.Keys == n.Keys && forall k :: k in m ==> PyEq(m[k], n[k])
    case _ => a == b
  }

  lemma {:induction false} PyEqReflexive(a: Value)
    ensures PyEq(a, a)
  {
    match a
    case List(xs) =>
      forall i | 0 <= i < |xs| ensures PyEq(xs[i], xs[i]) {
        PyEqReflexive(xs[i]);
      }
    case Object(m) =>
      forall k | k in m ensures PyEq(m[k], m[k]) {
        PyEqReflexive(m[k]);
      }
    case _ =>
  }

  lemma {:induction false} PyEqSymmetric(a: Value, b: Value)
    ensures PyEq(a, b) <==> PyEq(b, a)
  {
    match (a, b)
    case (List(xs), List(ys)) =>
      if |xs| == |ys| {
        forall i | 0 <= i < |xs| ensures PyEq(xs[i], ys[i]) <==> PyEq(ys[i], xs[i]) {
          PyEqSymmetric(xs[i], ys[i]);
        }
      }
    case (Object(m), Object(n)) =>
      if m.Keys == n.Keys {
        forall k | k in m ensures PyEq(m[k], n[k]) <==> PyEq(n[k], m[k]) {
          PyEqSymmetric(m[k], n[k]);
        }
      }
    case _ =>
  }

  /** Python's truthiness: None, False, 0, "", [] and {} are false. */
  predicate Truthy(v: Value)
  {
    match v
    case Null => false
    case Bool(b) => b
    case Int(n) => n != 0
    case Str(s) => s != ""
    case List(xs) => xs != []
    case Object(m) => m != map[]
  }

  /** `d.get(key)` on a dict with string keys: the value stored under `key`, or None. */
  function Get<V>(d: map<string, V>, key: string): (r: Option<V>)
    ensures r.Some? <==> key in d
    ensures r.Some? ==> r.value == d[key]
  {
    if key in d then Some(d[key]) else None
  }

  /** A Python dict object: a mutable mapping that several names can refer to. */
  class Dict {
    var entries: Doc

    constructor (m: Doc)
      ensures entries == m
    {
      entries := m;
    }
  }

  /** The character class of ASCII digits `[0-9]`. */
  predicate IsDigit(c: char)
  {
    '0' <= c <= '9'
  }

  predicate IsAsciiUpper(c: char)
  {
    'A' <= c <= 'Z'
  }

  predicate IsAsciiLower(c: char)
  {
    'a' <= c <= 'z'
  }

  /** `c.lower()` for an ASCII character; other characters are kept as they are. */
  function LowerChar(c: char): (r: char)
    ensures !IsAsciiUpper(r)
    ensures IsAsciiUpper(c) ==> IsAsciiLower(r) && r as int == c as int + 32
    ensures !IsAsciiUpper(c) ==> r == c
  {
    if IsAsciiUpper(c) then (c as int + 32) as char else c
  }

  /** ASCII lower-casing of a string, character by character. */
  function Lower(s: string): (r: string)
    ensures |r| == |s|
    ensures forall i :: 0 <= i < |s| ==> r[i] == LowerChar(s[i])
  {
    if s == [] then [] else [LowerChar(s[0])] + Lower(s[1..])
  }

  /** Two characters are equal up to ASCII case. */
  predicate SameLetterIgnoringCase(c: char, d: char)
  {
    c == d || (IsAsciiUpper(c) && d as int == c as int + 32) || (IsAsciiUpper(d) && c as int == d as int + 32)
  }

  /** Lower-casing gives a lower-case word `w` exactly when the string spells `w`
      in any mixture of cases. */
  lemma {:induction false} LowerIsCaseInsensitiveMatch(s: string, w: string)
    requires forall i :: 0 <= i < |w| ==> !IsAsciiUpper(w[i])
    ensures Lower(s) == w <==> |s| == |w| && forall i :: 0 <= i < |s| ==> SameLetterIgnoringCase(s[i], w[i])
  {
    if |s| == |w| {
      if forall i :: 0 <= i < |s| ==> SameLetterIgnoringCase(s[i], w[i]) {
        forall i | 0 <= i < |s| ensures Lower(s)[i] == w[i] {
          assert SameLetterIgnoringCase(s[i], w[i]);
        }
      }
    }
  }

  /** The seq of keys holds no key twice. */
  predicate NoDuplicates<T(==)>(s: seq<T>)
  {
    forall i, j :: 0 <= i < j < |s| ==> s[i] != s[j]
  }

  function Elements<T>(s: seq<T>): set<T>
  {
    set x | x in s
  }

  /** A seq without duplicates has as many elements as its set of elements. */
  lemma {:induction false} DistinctCardinality<T>(s: seq<T>)
    requires NoDuplicates(s)
    ensures |Elements(s)| == |s|
  {
    if s != [] {
      var t := s[..|s| - 1];
      assert s == t + [s[|s| - 1]];
      assert NoDuplicates(t);
      DistinctCardinality(t);
      assert s[|s| - 1] !in Elements(t);
      AppendFresh(t, s[|s| - 1]);
    }
  }

  /** Appending an element not yet present keeps a seq free of duplicates. */
  lemma AppendFresh<T>(s: seq<T>, x: T)
    requires NoDuplicates(s) && x !in Elements(s)
    ensures NoDuplicates(s + [x]) && Elements(s + [x]) == Elements(s) + {x}
  {
    assert forall y :: y in s + [x] <==> y in s || y == x;
  }
}
