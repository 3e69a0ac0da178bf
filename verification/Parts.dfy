/** Splitting a text at a separator, rewriting some parts, and joining again. */
module Parts {
  import opened Text
  import opened Detectors

  function Hits(parts: seq<string>, hit: string -> bool): nat {
    if parts == [] then 0
    else Hits(parts[..|parts| - 1], hit) + if hit(parts[|parts| - 1]) then 1 else 0
  }

  function RewriteAll(parts: seq<string>, rewrite: string -> string): (r: seq<string>)
    ensures |r| == |parts|
  {
    if parts == [] then [] else RewriteAll(parts[..|parts| - 1], rewrite) + [rewrite(parts[|parts| - 1])]
  }

  function Repeat(kind: DetectorKind, n: nat): (kinds: seq<DetectorKind>)
    ensures |kinds| == n
  {
    if n == 0 then [] else Repeat(kind, n - 1) + [kind]
  }

  lemma {:induction false} RewriteAt(parts: seq<string>, rewrite: string -> string)
    ensures forall i | 0 <= i < |parts| :: RewriteAll(parts, rewrite)[i] == rewrite(parts[i])
  {
    if parts != [] {
      RewriteAt(parts[..|parts| - 1], rewrite);
    }
  }

  /** When only hits are rewritten, no hits means no change. */
  lemma {:induction false} NoHitsNoChange(parts: seq<string>, hit: string -> bool, rewrite: string -> string)
    requires forall p | p in parts :: !hit(p) ==> rewrite(p) == p
    requires Hits(parts, hit) == 0
    ensures RewriteAll(parts, rewrite) == parts
  {
    if parts != [] {
      var n := |parts| - 1;
      NoHitsNoChange(parts[..n], hit, rewrite);
      assert parts == parts[..n] + [parts[n]];
    }
  }

  /** Rewriting is idempotent on a sequence when it is on every part. */
  lemma RewriteTwice(parts: seq<string>, rewrite: string -> string)
    requires forall p | p in parts :: rewrite(rewrite(p)) == rewrite(p)
    ensures RewriteAll(RewriteAll(parts, rewrite), rewrite) == RewriteAll(parts, rewrite)
  {
    var once := RewriteAll(parts, rewrite);
    RewriteAt(parts, rewrite);
    RewriteAt(once, rewrite);
    assert forall i | 0 <= i < |parts| :: parts[i] in parts;
  }

  /** The same parts are hits after rewriting. */
  lemma SameHitsAfter(parts: seq<string>, hit: string -> bool, rewrite: string -> string)
    requires forall p | p in parts :: hit(rewrite(p)) == hit(p)
    ensures Hits(RewriteAll(parts, rewrite), hit) == Hits(parts, hit)
  {
    if parts != [] {
      var n := |parts| - 1;
      SameHitsAfter(parts[..n], hit, rewrite);
      assert RewriteAll(parts, rewrite)[..n] == RewriteAll(parts[..n], rewrite);
    }
  }

  lemma {:induction false} HitsGrow(parts: seq<string>, i: nat, hit: string -> bool)
    requires i <= |parts|
    ensures Hits(parts[..i], hit) <= Hits(parts, hit)
  {
    if i == |parts| {
      assert parts[..i] == parts;
    } else {
      var n := |parts| - 1;
      HitsGrow(parts[..n], i, hit);
      assert parts[..n][..i] == parts[..i];
    }
  }

  /** What turn `i` of a rewriting loop adds: to the text `done`, and to the count of the at most `total` hits. */
  ghost predicate Turn(i: nat, sep: char, done: nat -> string, count: nat -> nat, total: nat, isHit: bool,
                       text: string)
  {
    && done(i + 1) == done(i) + (if i > 0 then [sep] else []) + text
    && count(i + 1) == count(i) + (if isHit then 1 else 0)
    && count(i + 1) <= total
  }

  lemma TurnAt(parts: seq<string>, i: nat, sep: char, hit: string -> bool, rewrite: string -> string)
    requires i < |parts|
    ensures Join(RewriteAll(parts[..i + 1], rewrite), sep) ==
            Join(RewriteAll(parts[..i], rewrite), sep) + (if i > 0 then [sep] else []) + rewrite(parts[i])
    ensures Hits(parts[..i + 1], hit) == Hits(parts[..i], hit) + (if hit(parts[i]) then 1 else 0)
  {
    var upTo := parts[..i + 1];
    assert upTo[..i] == parts[..i] && upTo[i] == parts[i];
    var rewritten := RewriteAll(upTo, rewrite);
    assert rewritten[..i] == RewriteAll(parts[..i], rewrite) && rewritten[i] == rewrite(parts[i]);
  }

  ghost predicate Turns(parts: seq<string>, sep: char, hit: string -> bool, rewrite: string -> string,
                        done: nat -> string, count: nat -> nat, i: nat)
  {
    i < |parts| ==> Turn(i, sep, done, count, Hits(parts, hit), hit(parts[i]), rewrite(parts[i]))
  }

  /** The text and the count after each number of turns. */
  lemma Run(parts: seq<string>, sep: char, hit: string -> bool, rewrite: string -> string)
    returns (done: nat -> string, count: nat -> nat)
    ensures done(0) == "" && count(0) == 0
    ensures done(|parts|) == Join(RewriteAll(parts, rewrite), sep) && count(|parts|) == Hits(parts, hit)
    ensures forall i: nat :: Turns(parts, sep, hit, rewrite, done, count, i)
  {
    done := (i: nat) => if i <= |parts| then Join(RewriteAll(parts[..i], rewrite), sep) else "";
    count := (i: nat) => if i <= |parts| then Hits(parts[..i], hit) else 0;
    forall i: nat
      ensures Turns(parts, sep, hit, rewrite, done, count, i)
    {
      if i < |parts| {
        TurnAt(parts, i, sep, hit, rewrite);
        HitsGrow(parts, i + 1, hit);
      }
    }
    assert parts[..0] == [] && parts[..|parts|] == parts;
  }
}
