/** Small shared vocabulary: an optional value (JavaScript's `null`-able
    fields) and the prefix / substring relations that `String.prototype`
    methods such as `includes` are stated with. */
module Base {

  /** A value that may be absent, standing for a nullable field. */
  datatype Option<T> = None | Some(value: T)

  /** `p` is a prefix of `s`. */
  predicate IsPrefix<T(==)>(p: seq<T>, s: seq<T>) {
    |p| <= |s| && s[..|p|] == p
  }

  /** `s` contains `sub` as a contiguous block, as `s.includes(sub)` does. */
  predicate Contains<T(==)>(s: seq<T>, sub: seq<T>)
    decreases |s|
  {
    IsPrefix(sub, s) || (|s| > 0 && Contains(s[1..], sub))
  }

  /** A block that occurs at offset `k` of `s` is contained in `s`. */
  lemma {:induction false} ContainsAt<T>(s: seq<T>, sub: seq<T>, k: nat)
    requires k + |sub| <= |s|
    requires s[k..k + |sub|] == sub
    ensures Contains(s, sub)
    decreases k
  {
    if k == 0 {
      assert s[..|sub|] == sub;
    } else {
      assert s[1..][k - 1..k - 1 + |sub|] == s[k..k + |sub|];
      ContainsAt(s[1..], sub, k - 1);
    }
  }

  /** Every suffix of a sequence is contained in it. */
  lemma ContainsSuffix<T>(prefix: seq<T>, sub: seq<T>)
    ensures Contains(prefix + sub, sub)
  {
    var s := prefix + sub;
    assert s[|prefix|..|prefix| + |sub|] == sub;
    ContainsAt(s, sub, |prefix|);
  }
}
