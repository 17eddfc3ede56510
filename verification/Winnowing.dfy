/** Winnowing fingerprints of a token sequence: the minimum hash of every window of
    consecutive k-grams. The hash arithmetic is left open: `mix` folds one token into
    the running hash. */
module Winnowing {

  type Mix = (nat, string) -> nat

  /** The running hash starts from the FNV offset basis. */
  const BASIS: nat := 1469598103934665603

  function Hash(mix: Mix, toks: seq<string>): nat {
    if toks == [] then BASIS else mix(Hash(mix, toks[..|toks| - 1]), toks[|toks| - 1])
  }

  /** The number of k-grams of a sequence of `n` tokens. */
  function GramCount(n: nat, k: nat): nat {
    if n < k then 0 else n - k + 1
  }

  function Grams(mix: Mix, toks: seq<string>, k: nat): (g: seq<nat>)
    ensures |g| == GramCount(|toks|, k)
    ensures forall i: nat :: i < |g| ==> i + k <= |toks| && g[i] == Hash(mix, toks[i..i + k])
  {
    seq<nat>(GramCount(|toks|, k), i requires 0 <= i < GramCount(|toks|, k) => Hash(mix, toks[i..i + k]))
  }

  method KGramHashes(mix: Mix, toks: seq<string>, k: nat) returns (grams: seq<nat>)
    ensures grams == Grams(mix, toks, k)
  {
    grams := [];
    if |toks| < k {
      return;
    }
    var i := 0;
    while i + k <= |toks|
      invariant i <= GramCount(|toks|, k) && grams == Grams(mix, toks, k)[..i]
    {
      var h := BASIS;
      var j := i;
      assert toks[i..j] == [];
      while j < i + k
        invariant i <= j <= i + k && h == Hash(mix, toks[i..j])
      {
        assert toks[i..j + 1][..j - i] == toks[i..j];
        h := mix(h, toks[j]);
        j := j + 1;
      }
      grams := grams + [h];
      i := i + 1;
    }
  }

  /** `m` is the minimum of the window of `w` hashes that starts at `s`. */
  ghost predicate IsWindowMin(g: seq<nat>, w: nat, s: nat, m: nat) {
    && w > 0 && s + w <= |g|
    && (exists p: nat :: s <= p < s + w && g[p] == m)
    && (forall p: nat :: s <= p < s + w ==> m <= g[p])
  }

  /** `m` is the minimum of some full window that starts before `n`. */
  ghost predicate MinimumBefore(g: seq<nat>, w: nat, n: nat, m: nat) {
    exists s: nat :: s < n && IsWindowMin(g, w, s, m)
  }

  /** Exactly the minima of all full windows. */
  ghost predicate AreFingerprints(mix: Mix, toks: seq<string>, k: nat, w: nat, fps: set<nat>) {
    forall m: nat :: m in fps <==> MinimumBefore(Grams(mix, toks, k), w, GramCount(|toks|, k), m)
  }

  lemma WindowMinUnique(g: seq<nat>, w: nat, s: nat, m: nat, n: nat)
    requires IsWindowMin(g, w, s, m) && IsWindowMin(g, w, s, n)
    ensures m == n
  {
  }

  lemma NextWindow(g: seq<nat>, w: nat, s: nat, m: nat)
    requires IsWindowMin(g, w, s, m)
    ensures forall n: nat :: MinimumBefore(g, w, s + 1, n) <==> MinimumBefore(g, w, s, n) || n == m
  {
    hide IsWindowMin;
    forall n: nat
      ensures MinimumBefore(g, w, s + 1, n) <==> MinimumBefore(g, w, s, n) || n == m
    {
      if IsWindowMin(g, w, s, n) {
        WindowMinUnique(g, w, s, n, m);
      }
    }
  }

  lemma NoWindowYet(g: seq<nat>, w: nat)
    ensures forall m: nat :: !MinimumBefore(g, w, 0, m)
  {
  }

  /** The last place of the window that holds its minimum. */
  method RightmostMinimum(g: seq<nat>, w: nat, start: nat) returns (best: nat)
    requires w > 0 && start + w <= |g|
    ensures start <= best < start + w && IsWindowMin(g, w, start, g[best])
    ensures forall q: nat :: best < q < start + w ==> g[best] < g[q]
  {
    hide IsWindowMin;
    best := start;
    var p := start + 1;
    while p < start + w
      invariant start <= best < p <= start + w
      invariant forall q: nat :: start <= q < p ==> g[best] <= g[q]
      invariant forall q: nat :: best < q < p ==> g[best] < g[q]
    {
      if g[p] <= g[best] {
        best := p;
      }
      p := p + 1;
    }
    WindowMinAt(g, w, start, best);
  }

  /** Emits the minimum of a window only when its place differs from the last one emitted. */
  method FingerprintsOf(mix: Mix, toks: seq<string>, k: nat, w: nat) returns (fps: set<nat>)
    requires w > 0
    ensures AreFingerprints(mix, toks, k, w, fps)
  {
    hide IsWindowMin, MinimumBefore;
    fps := {};
    var grams := KGramHashes(mix, toks, k);
    NoWindowYet(grams, w);
    var minPos: nat := |grams|;
    var end := w - 1;
    while end < |grams|
      invariant w - 1 <= end && (end < |grams| + 1 || end == w - 1)
      invariant forall m: nat :: m in fps <==> MinimumBefore(grams, w, end + 1 - w, m)
      invariant minPos < |grams| ==> grams[minPos] in fps
      invariant minPos <= |grams|
    {
      var start := end + 1 - w;
      var best := RightmostMinimum(grams, w, start);
      NextWindow(grams, w, start, grams[best]);
      if best != minPos {
        fps := fps + {grams[best]};
        minPos := best;
      }
      end := end + 1;
    }
    NoLaterWindow(grams, w, end + 1 - w);
  }

  lemma WindowMinAt(g: seq<nat>, w: nat, s: nat, best: nat)
    requires w > 0 && s + w <= |g| && s <= best < s + w
    requires forall p: nat :: s <= p < s + w ==> g[best] <= g[p]
    ensures IsWindowMin(g, w, s, g[best])
  {
  }

  lemma NoLaterWindow(g: seq<nat>, w: nat, n: nat)
    requires n + w > |g|
    ensures forall m: nat :: MinimumBefore(g, w, n, m) <==> MinimumBefore(g, w, |g|, m)
  {
    forall m: nat
      ensures MinimumBefore(g, w, n, m) <==> MinimumBefore(g, w, |g|, m)
    {
      if MinimumBefore(g, w, |g|, m) {
        var s: nat :| s < |g| && IsWindowMin(g, w, s, m);
        assert s < n;
      }
      if MinimumBefore(g, w, n, m) {
        var s: nat :| s < n && IsWindowMin(g, w, s, m);
        assert s < |g|;
      }
    }
  }

  lemma {:induction false} WindowMinExists(g: seq<nat>, w: nat, s: nat) returns (m: nat)
    requires w > 0 && s + w <= |g|
    ensures IsWindowMin(g, w, s, m)
    decreases w
  {
    if w == 1 {
      m := g[s];
    } else {
      var n := WindowMinExists(g, w - 1, s);
      m := if g[s + w - 1] < n then g[s + w - 1] else n;
    }
  }

  lemma SliceOfSlice(s: seq<string>, i: nat, n: nat, p: nat, k: nat)
    requires i + n <= |s| && p + k <= n
    ensures s[i..i + n][p..p + k] == s[i + p..(i + p) + k]
  {
    var x, y := s[i..i + n][p..p + k], s[i + p..(i + p) + k];
    forall q | 0 <= q < k
      ensures x[q] == y[q]
    {
      assert s[i..i + n][p + q] == s[i + (p + q)];
    }
  }

  /** A fingerprint of a run is one of every sequence that holds the run. */
  lemma FingerprintOfRun(mix: Mix, a: seq<string>, k: nat, w: nat, i: nat, n: nat, m: nat)
    requires i + n <= |a| && MinimumBefore(Grams(mix, a[i..i + n], k), w, GramCount(n, k), m)
    ensures MinimumBefore(Grams(mix, a, k), w, GramCount(|a|, k), m)
  {
    hide Hash, IsWindowMin;
    var run, g := Grams(mix, a[i..i + n], k), Grams(mix, a, k);
    var s: nat :| s < |run| && IsWindowMin(run, w, s, m);
    WindowFits(run, w, s, m);
    assert |a[i..i + n]| == n;
    var u, v := run[s..s + w], g[i + s..i + s + w];
    forall p: nat | p < w
      ensures u[p] == v[p]
    {
      SliceOfSlice(a, i, n, s + p, k);
    }
    SameWindow(run, g, w, s, i + s, m);
    assert i + s < |g| by { WindowFits(g, w, i + s, m); }
  }

  lemma WindowFits(g: seq<nat>, w: nat, s: nat, m: nat)
    requires IsWindowMin(g, w, s, m)
    ensures w > 0 && s + w <= |g|
  {
  }

  /** A shared run of `k + w - 1` tokens has a fingerprint of its own, so both sequences
      share it, wherever the run lies in each. */
  lemma SharedRunIsDetected(mix: Mix, a: seq<string>, b: seq<string>, k: nat, w: nat, i: nat, j: nat, n: nat,
                            fa: set<nat>, fb: set<nat>)
    requires w > 0 && n >= k + w - 1
    requires i + n <= |a| && j + n <= |b| && a[i..i + n] == b[j..j + n]
    requires AreFingerprints(mix, a, k, w, fa) && AreFingerprints(mix, b, k, w, fb)
    ensures fa * fb != {}
  {
    hide Hash, IsWindowMin;
    var run := Grams(mix, a[i..i + n], k);
    var m := WindowMinExists(run, w, 0);
    assert MinimumBefore(run, w, GramCount(n, k), m);
    FingerprintOfRun(mix, a, k, w, i, n, m);
    FingerprintOfRun(mix, b, k, w, j, n, m);
    assert m in fa * fb;
  }

  lemma SameWindow(g: seq<nat>, h: seq<nat>, w: nat, i: nat, j: nat, m: nat)
    requires IsWindowMin(g, w, i, m) && j + w <= |h|
    requires g[i..i + w] == h[j..j + w]
    ensures IsWindowMin(h, w, j, m)
  {
    var u := g[i..i + w];
    var q: nat :| i <= q < i + w && g[q] == m;
    assert u[q - i] == h[j + (q - i)];
    forall p: nat | j <= p < j + w
      ensures m <= h[p]
    {
      assert u[p - j] == g[i + (p - j)];
    }
  }
}
