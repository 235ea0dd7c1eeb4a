/** Sequences worked on in chunks of a fixed length, the last of which may be shorter. */
module Chunks {
  import opened PowersOfTwo

  function Chunked<A, B>(s: seq<A>, n: nat, f: seq<A> -> seq<B>): seq<B>
    requires n > 0
  {
    if s == [] then [] else if |s| <= n then f(s) else f(s[..n]) + Chunked(s[n..], n, f)
  }

  lemma {:induction false} ChunkedConcat<A, B>(s: seq<A>, t: seq<A>, n: nat, f: seq<A> -> seq<B>)
    requires n > 0 && |s| % n == 0
    ensures Chunked(s + t, n, f) == Chunked(s, n, f) + Chunked(t, n, f)
  {
    if s == [] {
      assert s + t == t;
    } else if t == [] {
      assert s + t == s;
    } else {
      WholeChunk(|s|, n);
      assert (s + t)[..n] == s[..n] && (s + t)[n..] == s[n..] + t;
      ChunkedConcat(s[n..], t, n, f);
      assert s[n..] == [] ==> s[..n] == s;
    }
  }

  lemma WholeChunk(k: nat, n: nat)
    requires n > 0 && k > 0 && k % n == 0
    ensures k >= n && (k - n) % n == 0
  {
    var q, r := DivMod(k, n);
    assert q >= 1 && k - n == (q - 1) * n;
    ModUnique(k - n, n, q - 1, 0);
  }

  /** `f` maps whole chunks of `n` to whole chunks of `m`, and shorter ones to shorter ones. */
  ghost predicate Rechunks<A(!new), B>(f: seq<A> -> seq<B>, n: nat, m: nat, last: nat) {
    forall c: seq<A> :: 0 < |c| <= n ==>
      && (|c| == n ==> |f(c)| == m)
      && (|c| < n && |c| == last ==> 0 < |f(c)| < m)
  }

  /** Working on chunks of chunks is working on chunks once. */
  lemma {:induction false} ChunkedCompose<A(!new), B, C>(
    s: seq<A>, n: nat, f: seq<A> -> seq<B>, m: nat, g: seq<B> -> seq<C>, h: seq<A> -> seq<C>)
    requires n > 0 && m > 0 && Rechunks(f, n, m, |s| % n)
    requires forall c: seq<A> :: 0 < |c| <= n && (|c| == n || |c| == |s| % n) ==> g(f(c)) == h(c)
    ensures Chunked(Chunked(s, n, f), m, g) == Chunked(s, n, h)
    decreases |s|
  {
    if s != [] {
      if |s| <= n {
        ShortMod(|s|, n);
      } else {
        RestMod(|s|, n);
        ChunkedCompose(s[n..], n, f, m, g, h);
        ChunkedNonempty(s[n..], n, f, m);
        var head, tail := f(s[..n]), Chunked(s[n..], n, f);
        assert |s[..n]| == n;
        assert (head + tail)[..m] == head && (head + tail)[m..] == tail;
      }
    }
  }

  lemma ShortMod(k: nat, n: nat)
    requires 0 < n
    ensures k < n ==> k % n == k
  {
    if k < n {
      ModUnique(k, n, 0, k);
    }
  }

  lemma RestMod(k: nat, n: nat)
    requires 0 < n <= k
    ensures (k - n) % n == k % n
  {
    var q, r := DivMod(k, n);
    assert k - n == (q - 1) * n + r;
    ModUnique(k - n, n, q - 1, r);
  }

  lemma ChunkedNonempty<A(!new), B>(s: seq<A>, n: nat, f: seq<A> -> seq<B>, m: nat)
    requires n > 0 && m > 0 && s != [] && Rechunks(f, n, m, |s| % n)
    ensures Chunked(s, n, f) != []
  {
    if |s| <= n {
      ShortMod(|s|, n);
      assert |f(s)| > 0;
    } else {
      assert |s[..n]| == n && |f(s[..n])| == m;
    }
  }

  lemma {:induction false} ChunkedIdentity<A>(s: seq<A>, n: nat, id: seq<A> -> seq<A>)
    requires n > 0 && forall c: seq<A> :: id(c) == c
    ensures Chunked(s, n, id) == s
  {
    if |s| > n {
      ChunkedIdentity(s[n..], n, id);
      assert s == s[..n] + s[n..];
    }
  }

  // ----- Whole chunks and the rest

  function Body<A>(s: seq<A>, n: nat): seq<A>
    requires n > 0
  {
    BodyFits(|s|, n);
    s[..|s| - |s| % n]
  }

  function Tail<A>(s: seq<A>, n: nat): (t: seq<A>)
    requires n > 0
    ensures |t| == |s| % n
  {
    BodyFits(|s|, n);
    s[|s| - |s| % n..]
  }

  lemma BodyFits(k: nat, n: nat)
    requires n > 0
    ensures k % n <= k && (k - k % n) % n == 0
  {
    var q, r := DivMod(k, n);
    assert q >= 0;
    ModUnique(k - r, n, q, 0);
  }

  lemma NextMod(k: nat, n: nat)
    requires n > 0
    ensures (k + 1) % n == if k % n < n - 1 then k % n + 1 else 0
  {
    var q, r := DivMod(k, n);
    if r < n - 1 {
      ModUnique(k + 1, n, q, r + 1);
    } else {
      ModUnique(k + 1, n, q + 1, 0);
    }
  }

  /** One more element goes to the rest, or completes it to a chunk. */
  lemma TailNext<A>(s: seq<A>, x: A, n: nat)
    requires n > 0
    ensures |s| % n < n - 1 ==> Tail(s + [x], n) == Tail(s, n) + [x] && Body(s + [x], n) == Body(s, n)
    ensures |s| % n == n - 1 ==> Tail(s + [x], n) == [] && Body(s + [x], n) == Body(s, n) + (Tail(s, n) + [x])
  {
    NextMod(|s|, n);
    BodyFits(|s|, n);
    BodyFits(|s| + 1, n);
    assert s == Body(s, n) + Tail(s, n);
  }

  lemma TailRest<A>(s: seq<A>, n: nat)
    requires 0 < n <= |s|
    ensures Tail(s[n..], n) == Tail(s, n) && s[..n] + Body(s[n..], n) == Body(s, n)
  {
    RestMod(|s|, n);
    BodyFits(|s| - n, n);
  }

  /** A function that leaves whole chunks alone changes only the last one, if it is shorter. */
  lemma {:induction false} ChunkedLast<A(!new)>(s: seq<A>, n: nat, f: seq<A> -> seq<A>)
    requires n > 0 && forall c: seq<A> :: |c| == n ==> f(c) == c
    ensures Chunked(s, n, f) == Body(s, n) + if Tail(s, n) == [] then [] else f(Tail(s, n))
    decreases |s|
  {
    ShortMod(|s|, n);
    if |s| > n {
      TailRest(s, n);
      ChunkedLast(s[n..], n, f);
      assert s[..n] + (Body(s[n..], n) + if Tail(s, n) == [] then [] else f(Tail(s, n)))
          == Body(s, n) + if Tail(s, n) == [] then [] else f(Tail(s, n));
    } else if |s| == n {
      ModUnique(n, n, 1, 0);
    }
  }
}
