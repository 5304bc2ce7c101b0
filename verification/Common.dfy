/** Shared vocabulary: optional values and total lookups. */
module Common {
  datatype Option<+T> = None | Some(value: T)

  /** A Go map read with the comma-ok form. */
  function Lookup<K, V>(m: map<K, V>, k: K): Option<V> {
    if k in m then Some(m[k]) else None
  }

  /** A Go map read of strings: the zero value stands for a missing key. */
  function Get<K>(m: map<K, string>, k: K): string {
    if k in m then m[k] else ""
  }

  /** A Go map read of integers. */
  function Count<K>(m: map<K, int>, k: K): int {
    if k in m then m[k] else 0
  }

  // ---- properties of all prefixes of a run ----

  lemma ThroughoutSplits<T>(before: seq<T>, es: seq<T>, p: seq<T> -> bool)
    requires es != [] && before == es[..|es| - 1]
    ensures (forall k :: 0 <= k <= |es| ==> p(es[..k]))
        <==> (forall k :: 0 <= k <= |before| ==> p(before[..k])) && p(es)
  {
    assert es[..|es|] == es;
    assert forall k :: 0 <= k < |es| ==> before[..k] == es[..k];
    if (forall k :: 0 <= k <= |before| ==> p(before[..k])) && p(es) {
      forall k | 0 <= k <= |es| ensures p(es[..k]) {
        if k < |es| { assert p(before[..k]); }
      }
    }
  }

  lemma StepsSplit<T>(before: seq<T>, es: seq<T>, q: (seq<T>, T) -> bool)
    requires es != [] && before == es[..|es| - 1]
    ensures (forall k :: 0 <= k < |es| ==> q(es[..k], es[k]))
        <==> (forall k :: 0 <= k < |before| ==> q(before[..k], before[k])) && q(before, es[|before|])
  {
    assert forall k :: 0 <= k < |before| ==> before[..k] == es[..k] && before[k] == es[k];
    if (forall k :: 0 <= k < |before| ==> q(before[..k], before[k])) && q(before, es[|before|]) {
      forall k | 0 <= k < |es| ensures q(es[..k], es[k]) {
        if k < |before| { assert q(before[..k], before[k]); }
      }
    }
  }
}
