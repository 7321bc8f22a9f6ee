/** The Python string and list primitives the chatbot's formatting relies on:
    str.strip(), str.split() with and without a separator, sep.join(parts),
    the slice xs[-n:] and the decimal rendering of an int in an f-string. */
module Text {
  import opened Wrappers

  /** The characters for which Python's str.isspace() holds; str.split() and
      str.strip() without arguments treat exactly these as whitespace. */
  predicate IsSpace(c: char) {
    c in Whitespace
  }

  const Whitespace: set<char> := {
    '\t', '\n', '\U{0B}', '\U{0C}', '\r', '\U{1C}', '\U{1D}', '\U{1E}', '\U{1F}', ' ',
    '\U{85}', '\U{A0}', '\U{1680}',
    '\U{2000}', '\U{2001}', '\U{2002}', '\U{2003}', '\U{2004}', '\U{2005}',
    '\U{2006}', '\U{2007}', '\U{2008}', '\U{2009}', '\U{200A}',
    '\U{2028}', '\U{2029}', '\U{202F}', '\U{205F}', '\U{3000}'}

  predicate NoSpace(s: string) {
    forall k :: 0 <= k < |s| ==> !IsSpace(s[k])
  }

  predicate AllSpace(s: string) {
    forall k :: 0 <= k < |s| ==> IsSpace(s[k])
  }

  /** Number of whitespace characters s starts with. */
  function LeadingSpace(s: string): (n: nat)
    ensures n <= |s|
    ensures forall k :: 0 <= k < n ==> IsSpace(s[k])
    ensures n < |s| ==> !IsSpace(s[n])
  {
    if s == [] || !IsSpace(s[0]) then 0 else 1 + LeadingSpace(s[1..])
  }

  /** Number of whitespace characters s ends with. */
  function TrailingSpace(s: string): (n: nat)
    ensures n <= |s|
    ensures forall k :: |s| - n <= k < |s| ==> IsSpace(s[k])
    ensures n < |s| ==> !IsSpace(s[|s| - 1 - n])
  {
    if s == [] || !IsSpace(s[|s| - 1]) then 0 else 1 + TrailingSpace(s[..|s| - 1])
  }

  /** s.strip(): the slice of s between its leading and its trailing whitespace. */
  function Strip(s: string): (r: string)
    ensures LeadingSpace(s) + |r| <= |s| && r == s[LeadingSpace(s)..LeadingSpace(s) + |r|]
    ensures AllSpace(s[..LeadingSpace(s)]) && AllSpace(s[LeadingSpace(s) + |r|..])
    ensures r == [] || (!IsSpace(r[0]) && !IsSpace(r[|r| - 1]))
    ensures r == [] <==> AllSpace(s)
  {
    var t := s[LeadingSpace(s)..];
    var r := t[..|t| - TrailingSpace(t)];
    assert r == s[LeadingSpace(s)..LeadingSpace(s) + |r|];
    r
  }

  /** s is its leading whitespace, s.strip() and its trailing whitespace. */
  lemma StripSplits(s: string)
    ensures var i := LeadingSpace(s); s == s[..i] + Strip(s) + s[i + |Strip(s)|..]
  {
    SliceAround(s, LeadingSpace(s), LeadingSpace(s) + |Strip(s)|);
  }

  /** Number of non-whitespace characters s starts with. */
  function WordLength(s: string): (n: nat)
    ensures n <= |s|
    ensures forall k :: 0 <= k < n ==> !IsSpace(s[k])
    ensures n < |s| ==> IsSpace(s[n])
  {
    if s == [] || IsSpace(s[0]) then 0 else 1 + WordLength(s[1..])
  }

  /** s.split(): the maximal runs of non-whitespace characters of s, in order. */
  function Words(s: string): (r: seq<string>)
    ensures forall i :: 0 <= i < |r| ==> r[i] != [] && NoSpace(r[i])
    decreases |s|
  {
    var t := s[LeadingSpace(s)..];
    if t == [] then []
    else
      var n := WordLength(t);
      [t[..n]] + Words(t[n..])
  }

  /** sep.join(parts). */
  function Join(parts: seq<string>, sep: string): string {
    if parts == [] then ""
    else if |parts| == 1 then parts[0]
    else parts[0] + sep + Join(parts[1..], sep)
  }

  /** " ".join(s.split()): every whitespace run becomes one space, none is kept at either end. */
  function Collapse(s: string): string {
    Join(Words(s), " ")
  }

  /** d occurs in s at index i. */
  predicate OccursAt(s: string, d: string, i: int) {
    0 <= i && i + |d| <= |s| && s[i..i + |d|] == d
  }

  /** d in s. */
  predicate Contains(s: string, d: string) {
    exists i :: 0 <= i <= |s| && OccursAt(s, d, i)
  }

  /** s.find(d, start): the first index at or after start where d occurs. */
  function FindFrom(s: string, d: string, start: nat): (r: Option<nat>)
    requires start <= |s|
    ensures r.Some? ==> start <= r.value && OccursAt(s, d, r.value)
    ensures r.Some? ==> forall j :: start <= j < r.value ==> !OccursAt(s, d, j)
    ensures r.None? ==> forall j :: start <= j ==> !OccursAt(s, d, j)
    decreases |s| - start
  {
    if OccursAt(s, d, start) then Some(start)
    else if start == |s| then None
    else FindFrom(s, d, start + 1)
  }

  /** s.split(d) for a non-empty separator d: the pieces between the
      non-overlapping occurrences of d, scanning from the left. */
  function SplitOn(s: string, d: string): (r: seq<string>)
    requires d != []
    ensures r != []
    decreases |s|
  {
    match FindFrom(s, d, 0)
    case None => [s]
    case Some(i) => [s[..i]] + SplitOn(s[i + |d|..], d)
  }

  /** xs[-n:] for n >= 1: the last n elements of xs, or all of xs when it is shorter. */
  function Last<T>(xs: seq<T>, n: nat): (r: seq<T>)
    requires n > 0
    ensures |r| == if |xs| < n then |xs| else n
    ensures r == xs[|xs| - |r|..]
  {
    if |xs| <= n then xs else xs[|xs| - n..]
  }

  function DigitChar(d: nat): (c: char)
    requires d < 10
  {
    ('0' as int + d) as char
  }

  /** The decimal text of n, as an f-string renders a non-negative int. */
  function NatToString(n: nat): (r: string)
    ensures r != []
    ensures forall k :: 0 <= k < |r| ==> '0' <= r[k] <= '9'
    ensures r[0] == '0' <==> n == 0
    ensures |r| > 1 ==> r[0] != '0'
  {
    if n < 10 then [DigitChar(n)] else NatToString(n / 10) + [DigitChar(n % 10)]
  }

  /** The number a string of decimal digits denotes (int(s) in Python). */
  function DecimalValue(s: string): nat
    requires forall k :: 0 <= k < |s| ==> '0' <= s[k] <= '9'
  {
    if s == [] then 0 else 10 * DecimalValue(s[..|s| - 1]) + (s[|s| - 1] as int - '0' as int)
  }

  // ---------------------------------------------------------------- lemmas

  /** Reading the rendered digits back gives the number: the rendering is
      injective, so distinct document positions get distinct labels. */
  lemma {:induction false} DecimalRoundTrip(n: nat)
    ensures DecimalValue(NatToString(n)) == n
  {
    if n >= 10 {
      var s := NatToString(n / 10);
      DecimalRoundTrip(n / 10);
      assert (s + [DigitChar(n % 10)])[..|s|] == s;
    }
  }

  lemma NatToStringInjective(m: nat, n: nat)
    requires NatToString(m) == NatToString(n)
    ensures m == n
  {
    DecimalRoundTrip(m);
    DecimalRoundTrip(n);
  }

  /** Joining the pieces of s.split(d) with d gives s back. */
  lemma {:induction false} SplitJoin(s: string, d: string)
    requires d != []
    ensures Join(SplitOn(s, d), d) == s
    decreases |s|
  {
    match FindFrom(s, d, 0)
    case None =>
    case Some(i) =>
      var rest := s[i + |d|..];
      SplitJoin(rest, d);
      assert SplitOn(s, d) == [s[..i]] + SplitOn(rest, d);
      JoinCons(s[..i], SplitOn(rest, d), d);
      OccurrenceSplit(s, d, i);
  }

  /** s is its three slices cut at i and j. */
  lemma SliceAround(s: string, i: nat, j: nat)
    requires i <= j <= |s|
    ensures s == s[..i] + s[i..j] + s[j..]
  {
    assert s == s[..i] + s[i..];
    assert s[i..] == s[i..j] + s[j..];
  }

  /** Appending after a non-empty sequence keeps its head and extends its tail. */
  lemma AppendTail<T>(xs: seq<T>, ys: seq<T>)
    requires xs != []
    ensures (xs + ys)[0] == xs[0] && (xs + ys)[1..] == xs[1..] + ys
  {
  }

  /** Text around an occurrence of d is what precedes it, d and what follows it. */
  lemma OccurrenceSplit(s: string, d: string, i: int)
    requires OccursAt(s, d, i)
    ensures s == s[..i] + d + s[i + |d|..]
  {
    assert s == s[..i] + s[i..i + |d|] + s[i + |d|..];
  }

  /** No piece of s.split(d) contains d. */
  lemma {:induction false} SplitPiecesAvoidSeparator(s: string, d: string)
    requires d != []
    ensures forall k :: 0 <= k < |SplitOn(s, d)| ==> !Contains(SplitOn(s, d)[k], d)
    decreases |s|
  {
    match FindFrom(s, d, 0)
    case None =>
      assert SplitOn(s, d) == [s];
    case Some(i) =>
      var rest := s[i + |d|..];
      SplitPiecesAvoidSeparator(rest, d);
      var piece := s[..i];
      forall j | OccursAt(piece, d, j) ensures false {
        assert piece[j..j + |d|] == s[j..j + |d|];
        assert OccursAt(s, d, j);
      }
      assert SplitOn(s, d) == [piece] + SplitOn(rest, d);
  }

  /** A slice of a string that does not contain d does not contain d. */
  lemma SliceAvoids(s: string, d: string, i: nat, j: nat)
    requires i <= j <= |s|
    requires !Contains(s, d)
    ensures !Contains(s[i..j], d)
  {
    forall k | OccursAt(s[i..j], d, k) ensures false {
      forall m | 0 <= m < |d| ensures s[i + k + m] == d[m] {
        assert s[i..j][k..k + |d|][m] == d[m];
      }
      assert s[i + k..i + k + |d|] == d;
      assert OccursAt(s, d, i + k);
    }
  }

  /** The first character of a join is that of the first part. */
  lemma JoinHead(parts: seq<string>, sep: string)
    requires parts != [] && parts[0] != []
    ensures Join(parts, sep) != [] && Join(parts, sep)[0] == parts[0][0]
  {
  }

  /** A join starts with its first part. */
  lemma {:induction false} JoinPrefix(parts: seq<string>, sep: string)
    requires parts != []
    ensures |parts[0]| <= |Join(parts, sep)| && Join(parts, sep)[..|parts[0]|] == parts[0]
  {
    if |parts| > 1 {
      assert Join(parts, sep) == parts[0] + (sep + Join(parts[1..], sep));
    }
  }

  /** gaps[0] + ws[0] + gaps[1] + ... + ws[n - 1] + gaps[n]. */
  function Weave(gaps: seq<string>, ws: seq<string>): string
    requires |gaps| == |ws| + 1
    decreases |ws|
  {
    if ws == [] then gaps[0] else gaps[0] + ws[0] + Weave(gaps[1..], ws[1..])
  }

  /** The whitespace runs of s around its words: before the first word,
      between consecutive words and after the last one. */
  function Gaps(s: string): seq<string>
    decreases |s|
  {
    var t := s[LeadingSpace(s)..];
    if t == [] then [s] else [s[..LeadingSpace(s)]] + Gaps(t[WordLength(t)..])
  }

  lemma {:induction false} GapsShape(s: string)
    ensures |Gaps(s)| == |Words(s)| + 1 && Gaps(s)[0] == s[..LeadingSpace(s)]
    decreases |s|
  {
    var t := s[LeadingSpace(s)..];
    WordsUnfold(s);
    if t != [] {
      GapsShape(t[WordLength(t)..]);
    } else {
      assert s[..LeadingSpace(s)] == s;
    }
  }

  lemma {:induction false} GapsAreSpace(s: string)
    ensures forall i :: 0 <= i < |Gaps(s)| ==> AllSpace(Gaps(s)[i])
    decreases |s|
  {
    var t := s[LeadingSpace(s)..];
    if t != [] {
      var rest := t[WordLength(t)..];
      GapsAreSpace(rest);
      forall i | 0 < i < |Gaps(s)| ensures AllSpace(Gaps(s)[i]) {
        assert Gaps(s)[i] == Gaps(rest)[i - 1];
      }
    }
  }

  lemma {:induction false} InnerGapsNonEmpty(s: string)
    ensures forall i :: 0 < i < |Gaps(s)| - 1 ==> Gaps(s)[i] != []
    decreases |s|
  {
    var t := s[LeadingSpace(s)..];
    if t != [] {
      var rest := t[WordLength(t)..];
      InnerGapsNonEmpty(rest);
      GapsAfterWord(t);
      assert Gaps(s) == [s[..LeadingSpace(s)]] + Gaps(rest);
      InnerNonEmptyCons(s[..LeadingSpace(s)], Gaps(rest));
    }
  }

  /** Text that starts with whitespace has a non-empty first run. */
  lemma GapsFirst(s: string)
    ensures s != [] && IsSpace(s[0]) ==> Gaps(s)[0] != []
  {
  }

  /** After a first word, the next run is non-empty unless no word follows. */
  lemma GapsAfterWord(t: string)
    ensures var rest := t[WordLength(t)..]; |Gaps(rest)| > 1 ==> Gaps(rest)[0] != []
  {
    var rest := t[WordLength(t)..];
    GapsFirst(rest);
    if rest == [] {
      assert Gaps(rest) == [rest];
    }
  }

  lemma InnerNonEmptyCons(a: string, gaps: seq<string>)
    requires forall i :: 0 < i < |gaps| - 1 ==> gaps[i] != []
    requires |gaps| > 1 ==> gaps[0] != []
    ensures forall i :: 0 < i < |[a] + gaps| - 1 ==> ([a] + gaps)[i] != []
  {
    forall i | 0 < i < |[a] + gaps| - 1 ensures ([a] + gaps)[i] != [] {
      assert ([a] + gaps)[i] == gaps[i - 1];
    }
  }

  lemma {:induction false} WeaveWords(s: string)
    ensures |Gaps(s)| == |Words(s)| + 1 && s == Weave(Gaps(s), Words(s))
    decreases |s|
  {
    var lead := LeadingSpace(s);
    var t := s[lead..];
    WordsUnfold(s);
    if t != [] {
      var n := WordLength(t);
      var rest := t[n..];
      WeaveWords(rest);
      assert Gaps(s) == [s[..lead]] + Gaps(rest);
      WeaveCons(s[..lead], t[..n], Gaps(rest), Words(rest));
      SplitThree(s, lead, n);
    }
  }

  lemma WeaveCons(a: string, w: string, gaps: seq<string>, ws: seq<string>)
    requires |gaps| == |ws| + 1
    ensures Weave([a] + gaps, [w] + ws) == a + w + Weave(gaps, ws)
  {
    assert ([a] + gaps)[1..] == gaps && ([w] + ws)[1..] == ws;
  }

  lemma SplitThree(s: string, i: nat, n: nat)
    requires i <= |s| && n <= |s[i..]|
    ensures s == s[..i] + s[i..][..n] + s[i..][n..]
  {
    assert s[i..] == s[i..][..n] + s[i..][n..];
    assert s == s[..i] + s[i..];
  }

  /** s.split() cuts s into its words and the whitespace runs around them,
      s = gaps[0] + words[0] + gaps[1] + ... + words[n - 1] + gaps[n]. The
      runs between two words are non-empty, so each word is a maximal run
      of non-whitespace characters. */
  lemma WordsAreMaximalRuns(s: string)
    ensures var gaps := Gaps(s);
      && |gaps| == |Words(s)| + 1
      && s == Weave(gaps, Words(s))
      && (forall i :: 0 <= i < |gaps| ==> AllSpace(gaps[i]))
      && (forall i :: 0 < i < |gaps| - 1 ==> gaps[i] != [])
  {
    WeaveWords(s);
    GapsAreSpace(s);
    InnerGapsNonEmpty(s);
  }

  /** A word alone splits into itself. */
  lemma WordsOneWord(w: string)
    requires w != [] && NoSpace(w)
    ensures Words(w) == [w]
  {
    WordsOfFirstWord(w);
    assert WordLength(w) == |w|;
    assert w[..|w|] == w;
    WordsUnfold(w[|w|..]);
  }

  /** Splitting words joined by single spaces gives the words back. */
  lemma {:induction false} WordsJoin(ws: seq<string>)
    requires forall i :: 0 <= i < |ws| ==> ws[i] != [] && NoSpace(ws[i])
    ensures Words(Join(ws, " ")) == ws
  {
    if ws == [] {
      WordsUnfold("");
    } else if |ws| == 1 {
      WordsOneWord(ws[0]);
    } else {
      WordsJoin(ws[1..]);
      JoinWordsNormalized(ws[1..]);
      WordsAfterWord(ws[0], Join(ws[1..], " "));
    }
  }

  /** A word, one space and text that starts with a word split into that
      word and the words of the text. */
  lemma WordsAfterWord(w: string, rest: string)
    requires w != [] && NoSpace(w) && rest != [] && !IsSpace(rest[0])
    ensures Words(w + " " + rest) == [w] + Words(rest)
  {
    var j := w + " " + rest;
    assert forall k :: 0 <= k < |w| ==> j[k] == w[k];
    assert IsSpace(j[|w|]);
    assert WordLength(j) == |w|;
    WordsOfFirstWord(j);
    SplitAfter(w, " ", rest);
    WordsSkipOneSpace(" " + rest);
    assert (" " + rest)[1..] == rest;
  }

  lemma SplitAfter(a: string, b: string, c: string)
    ensures (a + b + c)[..|a|] == a && (a + b + c)[|a|..] == b + c
  {
    assert a + b + c == a + (b + c);
  }

  /** Collapsing whitespace keeps the words: s.split() of the collapsed
      text is s.split(). */
  lemma WordsCollapse(s: string)
    ensures Words(Collapse(s)) == Words(s)
  {
    WordsJoin(Words(s));
  }

  /** Whitespace-normalised text: no whitespace at either end, and every
      whitespace character is a single ' ' between two other characters. */
  predicate Normalized(s: string) {
    forall k :: 0 <= k < |s| ==> SpaceOk(s, k)
  }

  /** Position k of s is not whitespace, or is a single ' ' between two
      non-whitespace characters. */
  predicate SpaceOk(s: string, k: nat)
    requires k < |s|
  {
    IsSpace(s[k]) ==> s[k] == ' ' && 0 < k < |s| - 1 && !IsSpace(s[k - 1]) && !IsSpace(s[k + 1])
  }

  lemma {:induction false} JoinWordsNormalized(ws: seq<string>)
    requires forall i :: 0 <= i < |ws| ==> ws[i] != [] && NoSpace(ws[i])
    ensures Normalized(Join(ws, " "))
    ensures ws != [] ==> Join(ws, " ") != [] && !IsSpace(Join(ws, " ")[0])
  {
    if |ws| > 1 {
      var w, rest := ws[0], Join(ws[1..], " ");
      JoinWordsNormalized(ws[1..]);
      var j := w + " " + rest;
      assert Join(ws, " ") == j;
      forall k | 0 <= k < |j| ensures SpaceOk(j, k) {
        if k < |w| {
          assert j[k] == w[k];
        } else if k == |w| {
          assert j[k - 1] == w[|w| - 1];
          assert j[k + 1] == rest[0];
        } else {
          var i := k - |w| - 1;
          assert j[k] == rest[i];
          assert SpaceOk(rest, i);
          if IsSpace(rest[i]) {
            assert j[k - 1] == rest[i - 1] && j[k + 1] == rest[i + 1];
          }
        }
      }
    }
  }

  /** The result of collapsing whitespace is normalised. */
  lemma CollapseNormalized(s: string)
    ensures Normalized(Collapse(s))
  {
    JoinWordsNormalized(Words(s));
  }

  /** The non-whitespace characters of s, in order. */
  function Visible(s: string): string {
    if s == [] then [] else (if IsSpace(s[0]) then [] else [s[0]]) + Visible(s[1..])
  }

  function Concat(ws: seq<string>): string {
    if ws == [] then [] else ws[0] + Concat(ws[1..])
  }

  lemma {:induction false} VisibleAppend(a: string, b: string)
    ensures Visible(a + b) == Visible(a) + Visible(b)
  {
    if a == [] {
      assert a + b == b;
    } else {
      var h := if IsSpace(a[0]) then [] else [a[0]];
      calc {
        Visible(a + b);
        { assert (a + b)[0] == a[0]; assert (a + b)[1..] == a[1..] + b; }
        h + Visible(a[1..] + b);
        { VisibleAppend(a[1..], b); }
        h + (Visible(a[1..]) + Visible(b));
        (h + Visible(a[1..])) + Visible(b);
      }
    }
  }

  lemma {:induction false} VisibleAllSpace(s: string)
    requires AllSpace(s)
    ensures Visible(s) == []
  {
    if s != [] { VisibleAllSpace(s[1..]); }
  }

  lemma {:induction false} VisibleNoSpace(s: string)
    requires NoSpace(s)
    ensures Visible(s) == s
  {
    if s != [] { VisibleNoSpace(s[1..]); }
  }

  lemma ConcatCons(w: string, ws: seq<string>)
    ensures Concat([w] + ws) == w + Concat(ws)
  {
    assert ([w] + ws)[1..] == ws;
  }

  /** split() skips the leading whitespace, then takes a first word. */
  lemma WordsUnfold(s: string)
    ensures var t := s[LeadingSpace(s)..];
      && (t == [] ==> Words(s) == [])
      && (t != [] ==> Words(s) == [t[..WordLength(t)]] + Words(t[WordLength(t)..]))
  {
  }

  /** Leading whitespace is invisible. */
  lemma VisibleSkipLead(s: string)
    ensures Visible(s) == Visible(s[LeadingSpace(s)..])
  {
    var lead := LeadingSpace(s);
    assert s == s[..lead] + s[lead..];
    VisibleAppend(s[..lead], s[lead..]);
    VisibleAllSpace(s[..lead]);
  }

  /** A first word is visible whole. */
  lemma VisibleFirstWord(t: string)
    ensures Visible(t) == t[..WordLength(t)] + Visible(t[WordLength(t)..])
  {
    var n := WordLength(t);
    assert t == t[..n] + t[n..];
    VisibleAppend(t[..n], t[n..]);
    VisibleNoSpace(t[..n]);
  }

  lemma {:induction false} VisibleWords(s: string)
    ensures Visible(s) == Concat(Words(s))
    decreases |s|
  {
    var t := s[LeadingSpace(s)..];
    VisibleSkipLead(s);
    WordsUnfold(s);
    if t != [] {
      var n := WordLength(t);
      VisibleFirstWord(t);
      VisibleWords(t[n..]);
      ConcatCons(t[..n], Words(t[n..]));
    }
  }

  lemma {:induction false} VisibleJoinWords(ws: seq<string>)
    requires forall i :: 0 <= i < |ws| ==> NoSpace(ws[i])
    ensures Visible(Join(ws, " ")) == Concat(ws)
  {
    if |ws| == 1 {
      VisibleNoSpace(ws[0]);
      assert Concat(ws) == ws[0] + Concat([]);
    } else if |ws| > 1 {
      VisibleJoinWords(ws[1..]);
      VisibleAppend(ws[0] + " ", Join(ws[1..], " "));
      VisibleAppend(ws[0], " ");
      VisibleNoSpace(ws[0]);
      assert Visible(" ") == [];
    }
  }

  /** Collapsing whitespace keeps every non-whitespace character, in order. */
  lemma CollapseKeepsText(s: string)
    ensures Visible(Collapse(s)) == Visible(s)
  {
    VisibleWords(s);
    VisibleJoinWords(Words(s));
  }

  /** Text that contains whitespace in the middle only as single spaces is
      unchanged by collapsing: collapsing is idempotent. */
  lemma CollapseIdempotent(s: string)
    ensures Collapse(Collapse(s)) == Collapse(s)
  {
    CollapseNormalized(s);
    NormalizedFixed(Collapse(s));
  }

  /** A single space before a word is skipped by split(). */
  lemma WordsSkipOneSpace(u: string)
    requires |u| >= 2 && IsSpace(u[0]) && !IsSpace(u[1])
    ensures Words(u) == Words(u[1..])
  {
    assert LeadingSpace(u[1..]) == 0;
    assert LeadingSpace(u) == 1;
  }

  /** Text starting with a non-space character holds at least one word. */
  lemma WordsOfWordStart(u: string)
    requires u != [] && !IsSpace(u[0])
    ensures Words(u) != []
  {
    assert LeadingSpace(u) == 0;
  }

  lemma NormalizedAfterSpace(s: string, n: nat)
    requires Normalized(s) && n + 1 < |s| && IsSpace(s[n])
    ensures Normalized(s[n + 1..]) && !IsSpace(s[n + 1])
  {
    var rest := s[n + 1..];
    assert SpaceOk(s, n) && SpaceOk(s, n + 1);
    forall k | 0 <= k < |rest| ensures SpaceOk(rest, k) {
      assert SpaceOk(s, n + 1 + k);
      assert rest[k] == s[n + 1 + k];
      if IsSpace(rest[k]) {
        assert rest[k - 1] == s[n + k] && rest[k + 1] == s[n + 2 + k];
      }
    }
  }

  /** Joining a part in front of a non-empty list adds it and a separator. */
  lemma JoinCons(w: string, ws: seq<string>, sep: string)
    requires ws != []
    ensures Join([w] + ws, sep) == w + sep + Join(ws, sep)
  {
    assert ([w] + ws)[1..] == ws;
  }

  /** Text starting with a non-space character splits into its first word
      and the words of the rest. */
  lemma WordsOfFirstWord(s: string)
    requires s != [] && !IsSpace(s[0])
    ensures Words(s) == [s[..WordLength(s)]] + Words(s[WordLength(s)..])
  {
    assert LeadingSpace(s) == 0;
  }

  /** Collapsing text that starts with a word followed by one space and
      another word keeps that word and that space. */
  lemma CollapseStep(s: string, n: nat)
    requires s != [] && !IsSpace(s[0]) && n == WordLength(s)
    requires n + 1 < |s| && s[n] == ' ' && !IsSpace(s[n + 1])
    ensures Collapse(s) == s[..n] + " " + Collapse(s[n + 1..])
  {
    var rest := s[n + 1..];
    WordsOfFirstWord(s);
    assert s[n..][1..] == rest;
    WordsSkipOneSpace(s[n..]);
    WordsOfWordStart(rest);
    JoinCons(s[..n], Words(rest), " ");
  }

  /** A word alone collapses to itself. */
  lemma CollapseOneWord(s: string)
    requires s != [] && NoSpace(s)
    ensures Collapse(s) == s
  {
    WordsOneWord(s);
  }

  /** In a normalised text, the first word is followed by one space and a
      normalised rest, unless it is the whole text. */
  lemma NormalizedNextWord(s: string, n: nat)
    requires Normalized(s) && n == WordLength(s) < |s|
    ensures n + 1 < |s| && s[n] == ' ' && !IsSpace(s[n + 1]) && Normalized(s[n + 1..])
  {
    assert SpaceOk(s, n);
    NormalizedAfterSpace(s, n);
  }

  lemma SpaceSplit(s: string, n: nat)
    requires n < |s| && s[n] == ' '
    ensures s == s[..n] + " " + s[n + 1..]
  {
  }

  lemma {:induction false} NormalizedFixed(s: string)
    requires Normalized(s)
    ensures Collapse(s) == s
    decreases |s|
  {
    if s != [] {
      assert SpaceOk(s, 0);
      var n := WordLength(s);
      if n < |s| {
        NormalizedNextWord(s, n);
        var rest := s[n + 1..];
        NormalizedFixed(rest);
        CollapseStep(s, n);
        SpaceSplit(s, n);
      } else {
        CollapseOneWord(s);
      }
    }
  }
}
