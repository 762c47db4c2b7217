/** Previews and the order in which they are tried (`src/preview.c`, `src/utils.c`). */
module Previews {
  import opened Bytes

  datatype Preview = Preview(
    name: Text, ext: Option<Text>, typ: Option<Text>, subtype: Option<Text>, script: Text,
    order: int, priority: int, extShort: bool)

  /** `strcmpnull`: a missing string is smaller than any other. */
  function StrCmpNull(a: Option<Text>, b: Option<Text>): int
  {
    match (a, b)
    case (None, None) => 0
    case (Some(_), None) => 1
    case (None, Some(_)) => -1
    case (Some(x), Some(y)) => StrCmp(x, y)
  }

  /** `cmp_previews`: negative if `p` is to be tried before `q`. */
  function Cmp(p: Preview, q: Preview): int
  {
    if q.order != p.order then q.order - p.order
    else if StrCmpNull(p.ext, q.ext) != 0 then -StrCmpNull(p.ext, q.ext)
    else if StrCmpNull(p.typ, q.typ) != 0 then -StrCmpNull(p.typ, q.typ)
    else if StrCmpNull(p.subtype, q.subtype) != 0 then -StrCmpNull(p.subtype, q.subtype)
    else q.priority - p.priority
  }

  lemma StrCmpNullFacts(a: Option<Text>, b: Option<Text>)
    ensures StrCmpNull(a, b) == 0 <==> a == b
    ensures StrCmpNull(a, b) == -StrCmpNull(b, a)
  {
    if a.Some? && b.Some? {
      StrCmpZero(a.value, b.value);
      StrCmpAntisymmetric(a.value, b.value);
    }
  }

  lemma StrCmpNullTransitive(a: Option<Text>, b: Option<Text>, c: Option<Text>)
    requires StrCmpNull(a, b) <= 0 && StrCmpNull(b, c) <= 0
    ensures StrCmpNull(a, c) <= 0
    ensures StrCmpNull(a, c) == 0 ==> StrCmpNull(a, b) == 0 && StrCmpNull(b, c) == 0
  {
    if a.Some? && b.Some? && c.Some? {
      StrCmpTransitive(a.value, b.value, c.value);
    }
  }

  /** The five keys of the order. */
  predicate SameKeys(p: Preview, q: Preview)
  {
    p.order == q.order && p.ext == q.ext && p.typ == q.typ && p.subtype == q.subtype && p.priority == q.priority
  }

  /** Swapping the arguments flips the sign, and zero means that all five keys agree. */
  lemma CmpSign(p: Preview, q: Preview)
    ensures Cmp(p, q) == 0 <==> SameKeys(p, q)
    ensures Cmp(p, q) == -Cmp(q, p)
  {
    StrCmpNullFacts(p.ext, q.ext);
    StrCmpNullFacts(p.typ, q.typ);
    StrCmpNullFacts(p.subtype, q.subtype);
  }

  /** A key that is given comes before one that is not, and of two the later in the order of a dictionary. */
  ghost predicate KeyBefore(a: Option<Text>, b: Option<Text>)
  {
    a.Some? && (b.None? || TextAfter(a.value, b.value))
  }

  /**
   What is tried first: by order, then extension, type and subtype, then priority, the
   higher before the lower each time.
   */
  lemma CmpMeaning(p: Preview, q: Preview)
    ensures Cmp(p, q) < 0 <==>
            || p.order > q.order
            || (p.order == q.order &&
                (|| KeyBefore(p.ext, q.ext)
                 || (p.ext == q.ext &&
                     (|| KeyBefore(p.typ, q.typ)
                      || (p.typ == q.typ &&
                          (|| KeyBefore(p.subtype, q.subtype)
                           || (p.subtype == q.subtype && p.priority > q.priority)))))))
  {
    KeyMeaning(p.ext, q.ext);
    KeyMeaning(p.typ, q.typ);
    KeyMeaning(p.subtype, q.subtype);
  }

  lemma KeyMeaning(a: Option<Text>, b: Option<Text>)
    ensures StrCmpNull(a, b) == 0 <==> a == b
    ensures StrCmpNull(a, b) > 0 <==> KeyBefore(a, b)
  {
    StrCmpNullFacts(a, b);
    if a.Some? && b.Some? {
      StrCmpMeaning(a.value, b.value);
    }
  }

  lemma CmpTransitive(p: Preview, q: Preview, r: Preview)
    requires Cmp(p, q) <= 0 && Cmp(q, r) <= 0
    ensures Cmp(p, r) <= 0
  {
    if p.order == q.order == r.order {
      KeyTransitive(p.ext, q.ext, r.ext);
      if p.ext == q.ext == r.ext {
        KeyTransitive(p.typ, q.typ, r.typ);
        if p.typ == q.typ == r.typ {
          KeyTransitive(p.subtype, q.subtype, r.subtype);
        }
      }
    }
  }

  /** For one key of the descending order: it never rises, and if it ends where it began it never moved. */
  lemma KeyTransitive(a: Option<Text>, b: Option<Text>, c: Option<Text>)
    ensures StrCmpNull(a, b) == 0 <==> a == b
    ensures StrCmpNull(b, c) == 0 <==> b == c
    ensures StrCmpNull(a, c) == 0 <==> a == c
    ensures StrCmpNull(a, b) >= 0 && StrCmpNull(b, c) >= 0 ==>
              StrCmpNull(a, c) >= 0 && (a == c ==> a == b == c)
  {
    StrCmpNullFacts(a, b);
    StrCmpNullFacts(b, c);
    StrCmpNullFacts(a, c);
    if StrCmpNull(a, b) >= 0 && StrCmpNull(b, c) >= 0 {
      StrCmpNullTransitive(c, b, a);
    }
  }

  ghost predicate Sorted(ps: seq<Preview>)
  {
    forall i, j :: 0 <= i < j < |ps| ==> Cmp(ps[i], ps[j]) <= 0
  }

  /** What sorting promises, and no more: equal keys may come in any order. */
  ghost predicate SortedFrom(ps: seq<Preview>, original: seq<Preview>)
  {
    Sorted(ps) && multiset(ps) == multiset(original)
  }

  /** In a sorted list all custom previews, of order 1, precede all built-in ones, of order 0. */
  lemma {:induction false} CustomsFirst(ps: seq<Preview>) returns (k: nat)
    requires Sorted(ps) && forall p :: p in ps ==> p.order == 0 || p.order == 1
    ensures k <= |ps| && forall i :: 0 <= i < |ps| ==> (i < k <==> ps[i].order == 1)
  {
    k := |ps|;
    if ps != [] {
      if ps[|ps| - 1].order == 1 {
        forall i | 0 <= i < |ps| ensures ps[i].order == 1 {
          assert i < |ps| - 1 ==> Cmp(ps[i], ps[|ps| - 1]) <= 0;
        }
      } else {
        k := CustomsFirst(ps[..|ps| - 1]);
      }
    }
  }
}
