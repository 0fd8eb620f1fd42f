/** The scanning loop that `src/dasm.c` uses twice: once to cut the text into lines, once to
    cut a line into tokens. After a cut it steps over the next character without looking at it. */
module Scanner {
  import opened Str

  // The pieces cut from position `p` on, when `n` characters of the current one are behind `p`.
  // With `hash` set a piece that begins with '#' is never cut.
  function Pieces(s: string, sep: char, hash: bool, p: nat, n: nat): seq<string>
    requires n <= p
    decreases |s| + 1 - p
  {
    if p > |s| then []
    else if (p == |s| || s[p] == sep) && !(hash && At(s, p - n) == '#') then
      [s[p - n..p]] + Pieces(s, sep, hash, p + 2, 1)
    else Pieces(s, sep, hash, p + 1, n + 1)
  }

  // One turn of the loop.
  lemma PiecesStep(s: string, sep: char, hash: bool, p: nat, n: nat)
    requires n <= p <= |s|
    ensures Pieces(s, sep, hash, p, n) ==
            if (p == |s| || s[p] == sep) && !(hash && At(s, p - n) == '#') then
              [s[p - n..p]] + Pieces(s, sep, hash, p + 2, 1)
            else Pieces(s, sep, hash, p + 1, n + 1)
  {
  }

  function Join(pieces: seq<string>, sep: char): string {
    if |pieces| == 0 then ""
    else if |pieces| == 1 then pieces[0]
    else pieces[0] + [sep] + Join(pieces[1..], sep)
  }

  lemma JoinTwo(a: string, b: string, sep: char)
    ensures Join([a, b], sep) == a + [sep] + b
  {
    assert [a, b][1..] == [b];
  }

  lemma JoinThree(a: string, b: string, c: string, sep: char)
    ensures Join([a, b, c], sep) == a + [sep] + (b + [sep] + c)
  {
    assert [a, b, c][1..] == [b, c] && [b, c][1..] == [c];
    assert Join([b, c], sep) == b + [sep] + c;
  }

  lemma JoinFive(a: string, b: string, c: string, d: string, e: string, sep: char)
    ensures Join([a, b, c, d, e], sep) == a + [sep] + (b + [sep] + (c + [sep] + (d + [sep] + e)))
  {
    assert [a, b, c, d, e][1..] == [b, c, d, e] && [b, c, d, e][1..] == [c, d, e];
    JoinThree(c, d, e, sep);
    assert Join([b, c, d, e], sep) == b + [sep] + Join([c, d, e], sep);
  }

  ghost predicate NoSeparator(pieces: seq<string>, sep: char) {
    forall k :: 0 <= k < |pieces| ==> sep !in pieces[k]
  }

  predicate StartsWithHash(s: string) {
    s != "" && s[0] == '#'
  }

  // Only the very first piece may be empty (`first` says that `pieces` begins with it).
  ghost predicate Clean(pieces: seq<string>, hash: bool, first: bool) {
    forall k :: 0 <= k < |pieces| ==>
      (pieces[k] != "" || (first && k == 0)) && !(hash && StartsWithHash(pieces[k]))
  }

  lemma {:induction false} Walk(s: string, sep: char, hash: bool, p: nat, n: nat, q: nat)
    requires n <= p <= q <= |s|
    requires forall k :: p <= k < q ==> s[k] != sep
    ensures Pieces(s, sep, hash, p, n) == Pieces(s, sep, hash, q, n + q - p)
    decreases q - p
  {
    if p < q {
      Walk(s, sep, hash, p + 1, n + 1, q);
    }
  }

  // A '#' at the start of a piece swallows everything up to the end of the text.
  lemma {:induction false} Swallowed(s: string, sep: char, p: nat, n: nat)
    requires n <= p && p - n <= |s| && At(s, p - n) == '#'
    ensures Pieces(s, sep, true, p, n) == []
    decreases |s| + 1 - p
  {
    if p <= |s| {
      Swallowed(s, sep, p + 1, n + 1);
    }
  }

  // A piece is at least as long as what was already behind the position.
  lemma {:induction false} FirstPiece(s: string, sep: char, hash: bool, p: nat, n: nat)
    requires n <= p
    ensures Pieces(s, sep, hash, p, n) != [] ==> |Pieces(s, sep, hash, p, n)[0]| >= n
    decreases |s| + 1 - p
  {
    if p <= |s| {
      FirstPiece(s, sep, hash, p + 1, n + 1);
    }
  }

  lemma JoinSplits(s: string, b: nat, pieces: seq<string>, sep: char)
    requires |pieces| >= 1 && b <= |s| && s[b..] == Join(pieces, sep)
    ensures var q := b + |pieces[0]|;
            q <= |s| && s[b..q] == pieces[0] &&
            (|pieces| == 1 ==> q == |s|) &&
            (|pieces| > 1 ==> q < |s| && s[q] == sep && s[q + 1..] == Join(pieces[1..], sep))
  {
    var q := b + |pieces[0]|;
    var rest := if |pieces| == 1 then "" else [sep] + Join(pieces[1..], sep);
    assert s[b..] == pieces[0] + rest;
    assert s[q..] == s[b..][|pieces[0]|..] == rest;
    assert s[b..q] == s[b..][..|pieces[0]|] == pieces[0];
  }

  // Cutting the piece that lies between `b` and `q`.
  lemma CutFirst(s: string, sep: char, hash: bool, b: nat, skipped: nat, q: nat)
    requires sep != '#' && b + skipped <= q <= |s|
    requires sep !in s[b..q] && (q == |s| || s[q] == sep)
    requires !(hash && StartsWithHash(s[b..q]))
    ensures Pieces(s, sep, hash, b + skipped, skipped) == [s[b..q]] + Pieces(s, sep, hash, q + 2, 1)
  {
    forall k | b + skipped <= k < q ensures s[k] != sep {
      assert s[b..q][k - b] == s[k];
    }
    Walk(s, sep, hash, b + skipped, skipped, q);
    assert b < q ==> s[b..q][0] == s[b];
  }

  // Scanning joined pieces gives them back exactly when none but the first is empty and, for
  // lines, none begins with '#'.
  lemma {:induction false} ScanJoin(s: string, b: nat, pieces: seq<string>, sep: char, hash: bool, first: bool)
    requires sep != '#' && |pieces| >= 1 && NoSeparator(pieces, sep)
    requires b <= |s| && s[b..] == Join(pieces, sep)
    ensures (if first then Pieces(s, sep, hash, b, 0) else Pieces(s, sep, hash, b + 1, 1)) == pieces
            <==> Clean(pieces, hash, first)
    decreases |pieces|
  {
    hide Pieces, Join;
    JoinSplits(s, b, pieces, sep);
    var skipped := if first then 0 else 1;
    var q := b + |pieces[0]|;
    if hash && StartsWithHash(pieces[0]) {
      assert s[b] == s[b..q][0] == '#';
      Swallowed(s, sep, b + skipped, skipped);
    } else if !first && pieces[0] == "" {
      FirstPiece(s, sep, hash, b + 1, 1);
    } else {
      var rest := pieces[1..];
      assert pieces == [pieces[0]] + rest;
      CutFirst(s, sep, hash, b, skipped, q);
      if |pieces| == 1 {
        PastTheEnd(s, sep, hash, q + 2, 1);
      } else {
        assert forall k :: 0 <= k < |rest| ==> rest[k] == pieces[k + 1];
        ScanJoin(s, q + 1, rest, sep, hash, false);
        CleanTail(pieces, hash, first);
      }
    }
  }

  // Of a text that goes on with a comment, exactly the pieces before the comment come back.
  lemma {:induction false} ScanComment(
    s: string, b: nat, pieces: seq<string>, tail: seq<string>, sep: char, first: bool)
    requires sep != '#' && NoSeparator(pieces, sep) && Clean(pieces, true, first)
    requires tail != [] && tail[0] != "" && tail[0][0] == '#'
    requires b <= |s| && s[b..] == Join(pieces + tail, sep)
    ensures (if first then Pieces(s, sep, true, b, 0) else Pieces(s, sep, true, b + 1, 1)) == pieces
    decreases |pieces|
  {
    hide Pieces, Join;
    JoinSplits(s, b, pieces + tail, sep);
    var skipped := if first then 0 else 1;
    if pieces == [] {
      assert s[b] == s[b..b + |tail[0]|][0] == '#';
      Swallowed(s, sep, b + skipped, skipped);
    } else {
      var q := b + |pieces[0]|;
      var rest := pieces[1..];
      assert pieces == [pieces[0]] + rest && (pieces + tail)[1..] == rest + tail;
      CutFirst(s, sep, true, b, skipped, q);
      assert forall k :: 0 <= k < |rest| ==> rest[k] == pieces[k + 1];
      ScanComment(s, q + 1, rest, tail, sep, false);
    }
  }

  lemma PastTheEnd(s: string, sep: char, hash: bool, p: nat, n: nat)
    requires p > |s| && n <= p
    ensures Pieces(s, sep, hash, p, n) == []
  {
  }

  lemma CleanTail(pieces: seq<string>, hash: bool, first: bool)
    requires |pieces| > 1
    requires (pieces[0] != "" || first) && !(hash && StartsWithHash(pieces[0]))
    ensures Clean(pieces, hash, first) <==> Clean(pieces[1..], hash, false)
  {
    var rest := pieces[1..];
    assert forall k :: 0 <= k < |rest| ==> rest[k] == pieces[k + 1];
    assert forall k :: 1 <= k < |pieces| ==> pieces[k] == rest[k - 1];
  }
}
