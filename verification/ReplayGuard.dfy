/** src/global/hash.util.ts, ReplayGuard: a nonce memory that forgets stamps far from the one it is looking at. */
module ReplayGuard {
  import opened Texts

  const DEFAULT_MAX_CLOCK_SKEW_MS: int := 5 * 60 * 1000

  function Distance(a: int, b: int): (d: nat)
    ensures d == a - b || d == b - a
  {
    if a < b then b - a else a - b
  }

  function Pruned(seen: map<Text, int>, window: int, stamp: int): map<Text, int> {
    map n | n in seen && Distance(stamp, seen[n]) <= window :: seen[n]
  }

  datatype Remembered = Remembered(isNew: bool, seen: map<Text, int>)

  function Remember(seen: map<Text, int>, window: int, nonce: Text, stamp: int): Remembered {
    var kept := Pruned(seen, window, stamp);
    if nonce in kept then Remembered(false, kept) else Remembered(true, kept[nonce := stamp])
  }

  class Guard {
    const windowMs: int
    var seen: map<Text, int>

    constructor (windowMs: int := DEFAULT_MAX_CLOCK_SKEW_MS)
      ensures this.windowMs == windowMs && seen == map[]
    {
      this.windowMs := windowMs;
      seen := map[];
    }

    method RememberNonce(nonce: Text, stamp: int) returns (isNew: bool)
      modifies this
      ensures Remembered(isNew, seen) == Remember(old(seen), windowMs, nonce, stamp)
    {
      Prune(stamp);
      if nonce in seen { return false; }
      seen := seen[nonce := stamp];
      return true;
    }

    method Prune(stamp: int)
      modifies this
      ensures seen == Pruned(old(seen), windowMs, stamp)
    {
      var todo := seen.Keys;
      while todo != {}
        invariant todo <= seen.Keys <= old(seen).Keys
        invariant forall n | n in seen :: seen[n] == old(seen)[n]
        invariant forall n | n in old(seen) && n !in todo :: n in seen <==> Distance(stamp, old(seen)[n]) <= windowMs
        decreases todo
      {
        var n :| n in todo;
        todo := todo - {n};
        if Distance(stamp, seen[n]) > windowMs { seen := seen - {n}; }
      }
    }
  }

  // ------------------------------------------------------------ whole runs

  datatype Call = Call(nonce: Text, stamp: int)

  /** The memory after the calls, starting empty. */
  function SeenAfter(window: int, calls: seq<Call>): map<Text, int> {
    if calls == [] then map[] else
      var last := calls[|calls| - 1];
      Remember(SeenAfter(window, calls[..|calls| - 1]), window, last.nonce, last.stamp).seen
  }

  /** Whether call `i` was answered "not seen before". */
  predicate Fresh(window: int, calls: seq<Call>, i: nat)
    requires i < |calls|
  {
    Remember(SeenAfter(window, calls[..i]), window, calls[i].nonce, calls[i].stamp).isNew
  }

  /** After a call every stored stamp lies within the window of that call's stamp. */
  lemma StampsStayInWindow(window: nat, calls: seq<Call>, nonce: Text)
    requires calls != [] && nonce in SeenAfter(window, calls)
    ensures Distance(calls[|calls| - 1].stamp, SeenAfter(window, calls)[nonce]) <= window
  {
  }

  /** Some call in (i, j] is stamped more than the window away from call i. */
  predicate FarCall(window: int, calls: seq<Call>, i: nat, j: nat)
    requires i <= j < |calls|
  {
    exists k | i < k <= j :: Distance(calls[k].stamp, calls[i].stamp) > window
  }

  lemma FarStep(window: int, calls: seq<Call>, i: nat, j: nat)
    requires i < j < |calls|
    ensures FarCall(window, calls, i, j) <==>
      FarCall(window, calls, i, j - 1) || Distance(calls[j].stamp, calls[i].stamp) > window
  {
  }

  lemma SeenStep(window: int, calls: seq<Call>, j: nat)
    requires j < |calls|
    ensures SeenAfter(window, calls[..j + 1])
      == Remember(SeenAfter(window, calls[..j]), window, calls[j].nonce, calls[j].stamp).seen
  {
    assert calls[..j + 1][..j] == calls[..j];
  }

  /** From its acceptance the memory holds a nonce with its stamp until the first far call, and not after it. */
  lemma {:induction false} HeldUntilFar(window: nat, calls: seq<Call>, i: nat, j: nat)
    requires i < j < |calls| && Fresh(window, calls, i)
    requires forall k | i < k < j && calls[k].nonce == calls[i].nonce :: !Fresh(window, calls, k)
    ensures var seen := SeenAfter(window, calls[..j]);
      (calls[i].nonce in seen <==> !FarCall(window, calls, i, j - 1))
      && (calls[i].nonce in seen ==> seen[calls[i].nonce] == calls[i].stamp)
    decreases j
  {
    SeenStep(window, calls, j - 1);
    if j > i + 1 {
      HeldUntilFar(window, calls, i, j - 1);
      FarStep(window, calls, i, j - 1);
    }
  }

  /** A nonce is accepted again exactly when some later call is stamped more than the window from the stored one. */
  lemma ReacceptedIffFar(window: nat, calls: seq<Call>, i: nat, j: nat)
    requires i < j < |calls| && Fresh(window, calls, i) && calls[j].nonce == calls[i].nonce
    requires forall k | i < k < j && calls[k].nonce == calls[i].nonce :: !Fresh(window, calls, k)
    ensures Fresh(window, calls, j) <==> FarCall(window, calls, i, j)
  {
    HeldUntilFar(window, calls, i, j);
    FarStep(window, calls, i, j);
  }

  /**
   * Stamps ahead of the clock break "accepted once": with the clock at `now`, all three calls are within the allowed
   * skew, and the first message is accepted again as the third.
   */
  lemma FutureStampIsReplayed(n: Text, m: Text, now: int)
    requires n != m
    ensures var w := DEFAULT_MAX_CLOCK_SKEW_MS;
      var calls := [Call(n, now + w), Call(m, now - w), Call(n, now + w)];
      Fresh(w, calls, 0) && Fresh(w, calls, 2)
  {
    var w := DEFAULT_MAX_CLOCK_SKEW_MS;
    var calls := [Call(n, now + w), Call(m, now - w), Call(n, now + w)];
    assert calls[..1] == [calls[0]] && calls[..2] == [calls[0], calls[1]];
    assert calls[..2][..1] == calls[..1] && calls[..1][..0] == [];
    assert SeenAfter(w, calls[..1]) == map[n := now + w];
    assert SeenAfter(w, calls[..2]) == map[m := now - w];
  }
}
