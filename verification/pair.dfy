/** The canonical ordering of a pair of user ids shared by friendships and
    chats (`orderedPair`). Its comparison is not part of this model: it is
    a parameter `lt`, and the properties below hold for any strict total
    order. */
module Pair {

  /** `lt` is a strict total order: asymmetric, transitive and connected. */
  ghost predicate StrictTotalOrder<T(!new)>(lt: (T, T) -> bool) {
    && (forall x, y :: lt(x, y) ==> !lt(y, x))
    && (forall x, y, z :: lt(x, y) && lt(y, z) ==> lt(x, z))
    && (forall x, y :: x != y ==> lt(x, y) || lt(y, x))
  }

  /** `p` is in strictly descending order under `lt`: its second member is
      below its first and not the other way round. */
  predicate Descending<T>(lt: (T, T) -> bool, p: (T, T)) {
    lt(p.1, p.0) && !lt(p.0, p.1)
  }

  /** `orderedPair(a, b)`: the two arguments, smaller first. */
  function OrderedPair<T(==)>(lt: (T, T) -> bool, a: T, b: T): (p: (T, T))
    ensures p == (a, b) || p == (b, a)
    ensures !Descending(lt, p)
  {
    if lt(b, a) then (b, a) else (a, b)
  }

  /** Under a strict total order the two members of a pair of distinct ids
      come out strictly ordered. */
  lemma Ordered<T(!new)>(lt: (T, T) -> bool, a: T, b: T)
    requires StrictTotalOrder(lt)
    requires a != b
    ensures lt(OrderedPair(lt, a, b).0, OrderedPair(lt, a, b).1)
  {
  }

  /** The canonical pair does not depend on the order of the arguments. */
  lemma Symmetric<T(!new)>(lt: (T, T) -> bool, a: T, b: T)
    requires StrictTotalOrder(lt)
    ensures OrderedPair(lt, a, b) == OrderedPair(lt, b, a)
  {
    if a != b {
      assert lt(a, b) || lt(b, a);
    }
  }

  /** Two pairs of arguments give the same canonical pair exactly when they
      are the same unordered pair. */
  lemma SameUnorderedPair<T(!new)>(lt: (T, T) -> bool, a: T, b: T, c: T, d: T)
    requires StrictTotalOrder(lt)
    ensures OrderedPair(lt, a, b) == OrderedPair(lt, c, d)
       <==> (a == c && b == d) || (a == d && b == c)
  {
    Symmetric(lt, a, b);
    Symmetric(lt, c, d);
  }
}
