/**
 * How a Windows argument string is split into the array that
 * Environment.GetCommandLineArgs returns after the program name: the
 * Microsoft C runtime rules. Blanks outside quotes separate arguments, a
 * double quote toggles quoting, 2n backslashes before a quote give n
 * backslashes and toggle, 2n+1 give n backslashes and a literal quote, and
 * backslashes before any other character are literal. (The later rule that
 * turns a doubled quote inside quotes into one literal quote is not
 * modelled; none of the strings the updater builds contains a quote
 * character under the conditions of the lemmas below.)
 */
module CommandLine {
  import opened Basics

  const Backslash: char := '\\'
  const QuoteChar: char := '"'

  /** An argument between double quotes, as the updater writes "{path}". */
  function Quote(s: string): string
  {
    [QuoteChar] + s + [QuoteChar]
  }

  /** The arguments, each quoted, separated by one space. */
  function QuotedList(xs: seq<string>): string
  {
    if |xs| == 0 then ""
    else if |xs| == 1 then Quote(xs[0])
    else Quote(xs[0]) + " " + QuotedList(xs[1..])
  }

  predicate IsBlank(c: char)
  {
    c == ' ' || c == '\t'
  }

  /** Can be quoted and read back unchanged: no quote inside, no backslash at the end. */
  predicate QuotableArgument(s: string)
  {
    QuoteChar !in s && (s == [] || s[|s| - 1] != Backslash)
  }

  predicate AllQuotable(xs: seq<string>)
  {
    forall i :: 0 <= i < |xs| ==> QuotableArgument(xs[i])
  }

  /** Can be written bare and read back unchanged. */
  predicate PlainArgument(s: string)
  {
    s != [] && QuoteChar !in s && ' ' !in s && '\t' !in s
  }

  predicate AllPlain(xs: seq<string>)
  {
    forall i :: 0 <= i < |xs| ==> PlainArgument(xs[i])
  }

  function Backslashes(n: nat): (r: string)
    ensures |r| == n && forall i :: 0 <= i < n ==> r[i] == Backslash
  {
    seq(n, _ => Backslash)
  }

  /**
   * Scanner state: finished arguments, the argument being built, whether one
   * is open, whether we are inside quotes, and pending backslashes.
   */
  datatype Scan = Scan(done: seq<string>, cur: string, inArg: bool, inQuotes: bool, slashes: nat)

  function Idle(done: seq<string>): Scan
  {
    Scan(done, "", false, false, 0)
  }

  function Step(st: Scan, c: char): Scan
  {
    if c == Backslash then
      st.(inArg := true, slashes := st.slashes + 1)
    else if c == QuoteChar then
      var cur := st.cur + Backslashes(st.slashes / 2);
      if st.slashes % 2 == 1 then st.(cur := cur + [QuoteChar], inArg := true, slashes := 0)
      else st.(cur := cur, inArg := true, inQuotes := !st.inQuotes, slashes := 0)
    else
      var cur := st.cur + Backslashes(st.slashes);
      if IsBlank(c) && !st.inQuotes then
        if st.inArg then Idle(st.done + [cur]) else st
      else st.(cur := cur + [c], inArg := true, slashes := 0)
  }

  function ScanAll(st: Scan, s: string): Scan
    decreases |s|
  {
    if s == [] then st else Step(ScanAll(st, s[..|s| - 1]), s[|s| - 1])
  }

  function Finish(st: Scan): seq<string>
  {
    if st.inArg then st.done + [st.cur + Backslashes(st.slashes)] else st.done
  }

  /** The argument array a process started with argument string `s` sees after its program name. */
  function SplitArguments(s: string): seq<string>
  {
    Finish(ScanAll(Idle([]), s))
  }

  lemma {:induction false} ScanAppend(st: Scan, a: string, b: string)
    ensures ScanAll(st, a + b) == ScanAll(ScanAll(st, a), b)
    decreases |b|
  {
    if b == [] {
      assert a + b == a;
    } else {
      var b' := b[..|b| - 1];
      assert (a + b)[..|a + b| - 1] == a + b';
      ScanAppend(st, a, b');
    }
  }

  /** Inside quotes, characters other than a quote accumulate verbatim, backslashes as pending. */
  lemma {:induction false} ScanInsideQuotes(done: seq<string>, cur: string, p: string)
    requires QuoteChar !in p
    ensures var st := ScanAll(Scan(done, cur, true, true, 0), p);
      st.done == done && st.inArg && st.inQuotes && st.cur + Backslashes(st.slashes) == cur + p
      && (st.slashes > 0 ==> p[|p| - 1] == Backslash)
    decreases |p|
  {
    if p != [] {
      var q := p[..|p| - 1];
      ScanInsideQuotes(done, cur, q);
      var st := ScanAll(Scan(done, cur, true, true, 0), q);
      var c := p[|p| - 1];
      assert c != QuoteChar;
      assert cur + p == cur + q + [c];
      if c == Backslash {
        assert Backslashes(st.slashes + 1) == Backslashes(st.slashes) + [Backslash];
      }
    }
  }

  /** A quoted quotable argument is read back as itself. */
  lemma ScanQuoted(done: seq<string>, s: string)
    requires QuotableArgument(s)
    ensures ScanAll(Idle(done), Quote(s)) == Scan(done, s, true, false, 0)
  {
    var open := Step(Idle(done), QuoteChar);
    assert open == Scan(done, "", true, true, 0);
    ScanOne(Idle(done), QuoteChar);
    ScanAppend(Idle(done), [QuoteChar], s);
    ScanInsideQuotes(done, "", s);
    assert "" + s == s;
    var st := ScanAll(open, s);
    assert st.slashes == 0;
    assert st.cur == s;
    ScanAppend(Idle(done), [QuoteChar] + s, [QuoteChar]);
    ScanOne(st, QuoteChar);
  }

  /** Outside quotes, a run without quotes and blanks extends the current argument. */
  lemma {:induction false} ScanPlain(done: seq<string>, cur: string, inArg: bool, p: string)
    requires QuoteChar !in p && ' ' !in p && '\t' !in p
    ensures var st := ScanAll(Scan(done, cur, inArg, false, 0), p);
      st.done == done && !st.inQuotes && st.cur + Backslashes(st.slashes) == cur + p
      && st.inArg == (inArg || p != [])
      && (st.slashes > 0 ==> p[|p| - 1] == Backslash)
    decreases |p|
  {
    if p != [] {
      var q := p[..|p| - 1];
      var c := p[|p| - 1];
      ScanPlain(done, cur, inArg, q);
      var st := ScanAll(Scan(done, cur, inArg, false, 0), q);
      assert c != QuoteChar && !IsBlank(c);
      assert cur + p == cur + q + [c];
      if c == Backslash {
        assert Backslashes(st.slashes + 1) == Backslashes(st.slashes) + [Backslash];
      }
    }
  }

  lemma ScanSnoc(st: Scan, s: string, c: char)
    ensures ScanAll(st, s + [c]) == Step(ScanAll(st, s), c)
  {
    assert (s + [c])[..|s|] == s;
  }

  lemma ScanOne(st: Scan, c: char)
    ensures ScanAll(st, [c]) == Step(st, c)
  {
    assert [c][..0] == [];
  }

  /** A blank after a closed argument completes it. */
  lemma ScanBlankAfter(done: seq<string>, x: string)
    ensures ScanAll(Scan(done, x, true, false, 0), " ") == Idle(done + [x])
  {
    ScanOne(Scan(done, x, true, false, 0), ' ');
    assert x + Backslashes(0) == x;
  }

  lemma SnocFront(done: seq<string>, xs: seq<string>)
    requires |xs| > 1
    ensures done + [xs[0]] + xs[1..][..|xs[1..]| - 1] == done + xs[..|xs| - 1]
  {
  }

  /** A quoted argument and the blank after it leave the scanner idle with the argument done. */
  lemma ScanQuotedThenBlank(done: seq<string>, x: string)
    requires QuotableArgument(x)
    ensures ScanAll(Idle(done), Quote(x) + " ") == Idle(done + [x])
  {
    ScanQuoted(done, x);
    ScanAppend(Idle(done), Quote(x), " ");
    ScanBlankAfter(done, x);
  }

  lemma {:induction false} ScanQuotedList(done: seq<string>, xs: seq<string>)
    requires |xs| > 0
    requires AllQuotable(xs)
    ensures ScanAll(Idle(done), QuotedList(xs)) == Scan(done + xs[..|xs| - 1], xs[|xs| - 1], true, false, 0)
    decreases |xs|
  {
    assert QuotableArgument(xs[0]);
    if |xs| == 1 {
      ScanQuoted(done, xs[0]);
    } else {
      var rest := QuotedList(xs[1..]);
      assert QuotedList(xs) == (Quote(xs[0]) + " ") + rest;
      ScanQuotedThenBlank(done, xs[0]);
      ScanAppend(Idle(done), Quote(xs[0]) + " ", rest);
      assert AllQuotable(xs[1..]) by {
        forall i | 0 <= i < |xs[1..]| ensures QuotableArgument(xs[1..][i]) {
          assert xs[1..][i] == xs[i + 1];
        }
      }
      ScanQuotedList(done + [xs[0]], xs[1..]);
      SnocFront(done, xs);
    }
  }

  /** Splitting what a scan from the start reached once it has closed no quotes. */
  lemma SplitOfScan(s: string, args: seq<string>, last: string)
    requires var st := ScanAll(Idle([]), s); st.done == args && st.inArg && st.cur + Backslashes(st.slashes) == last
    ensures SplitArguments(s) == args + [last]
  {
  }

  /** Quoting a list of quotable arguments and splitting the result gives the list back. */
  lemma QuotedListRoundTrip(xs: seq<string>)
    requires AllQuotable(xs)
    ensures SplitArguments(QuotedList(xs)) == xs
  {
    if |xs| > 0 {
      var s := QuotedList(xs);
      ScanQuotedList([], xs);
      SplitOfScan(s, xs[..|xs| - 1], xs[|xs| - 1]);
      assert xs[..|xs| - 1] + [xs[|xs| - 1]] == xs;
    }
  }

  /** A bare argument and the blank after it leave the scanner idle with the argument done. */
  lemma ScanPlainThenBlank(done: seq<string>, x: string)
    requires PlainArgument(x)
    ensures ScanAll(Idle(done), x + " ") == Idle(done + [x])
  {
    ScanPlain(done, "", false, x);
    var st := ScanAll(Idle(done), x);
    assert "" + x == x;
    assert st.inArg && !st.inQuotes && st.done == done;
    assert st.cur + Backslashes(st.slashes) == x;
    ScanSnoc(Idle(done), x, ' ');
    assert Step(st, ' ') == Idle(st.done + [st.cur + Backslashes(st.slashes)]);
  }

  lemma {:induction false} ScanJoined(done: seq<string>, xs: seq<string>)
    requires |xs| > 0
    requires AllPlain(xs)
    ensures var st := ScanAll(Idle(done), Join(xs, " "));
      st.done == done + xs[..|xs| - 1] && st.inArg && st.cur + Backslashes(st.slashes) == xs[|xs| - 1]
    decreases |xs|
  {
    assert PlainArgument(xs[0]);
    if |xs| == 1 {
      ScanPlain(done, "", false, xs[0]);
      assert "" + xs[0] == xs[0];
    } else {
      var rest := Join(xs[1..], " ");
      assert Join(xs, " ") == (xs[0] + " ") + rest;
      ScanPlainThenBlank(done, xs[0]);
      ScanAppend(Idle(done), xs[0] + " ", rest);
      assert AllPlain(xs[1..]) by {
        forall i | 0 <= i < |xs[1..]| ensures PlainArgument(xs[1..][i]) {
          assert xs[1..][i] == xs[i + 1];
        }
      }
      ScanJoined(done + [xs[0]], xs[1..]);
      SnocFront(done, xs);
    }
  }

  /** Plain arguments joined by single spaces split back into the same arguments. */
  lemma JoinedRoundTrip(xs: seq<string>)
    requires AllPlain(xs)
    ensures SplitArguments(Join(xs, " ")) == xs
  {
    if |xs| > 0 {
      var s := Join(xs, " ");
      ScanJoined([], xs);
      SplitOfScan(s, xs[..|xs| - 1], xs[|xs| - 1]);
      assert xs[..|xs| - 1] + [xs[|xs| - 1]] == xs;
    }
  }

  /** Arguments already split off do not influence how the rest is split. */
  lemma {:induction false} ScanKeepsDone(d: seq<string>, st: Scan, s: string)
    ensures ScanAll(st.(done := d + st.done), s) == ScanAll(st, s).(done := d + ScanAll(st, s).done)
    decreases |s|
  {
    if s != [] {
      ScanKeepsDone(d, st, s[..|s| - 1]);
      var r := ScanAll(st, s[..|s| - 1]);
      assert d + (r.done + [r.cur + Backslashes(r.slashes)]) == (d + r.done) + [r.cur + Backslashes(r.slashes)];
    }
  }

  /** Splitting after some arguments were split off appends to them. */
  lemma SplitAfter(d: seq<string>, s: string)
    ensures Finish(ScanAll(Idle(d), s)) == d + SplitArguments(s)
  {
    assert Idle(d) == Idle([]).(done := d + Idle([]).done);
    ScanKeepsDone(d, Idle([]), s);
    var r := ScanAll(Idle([]), s);
    assert d + (r.done + [r.cur + Backslashes(r.slashes)]) == (d + r.done) + [r.cur + Backslashes(r.slashes)];
  }

  /**
   * A quoted argument that ends in one backslash: the backslash escapes the
   * closing quote, which becomes part of the argument, and quoting stays on.
   */
  lemma ScanEscapedClosingQuote(done: seq<string>, e: string)
    requires QuotableArgument(e)
    ensures ScanAll(Idle(done), Quote(e + [Backslash])) == Scan(done, e + [QuoteChar], true, true, 0)
  {
    var open := [QuoteChar] + e + [Backslash];
    ScanOpenQuoteBackslash(done, e);
    ScanSnoc(Idle(done), open, QuoteChar);
    var st1 := Scan(done, e, true, true, 1);
    assert Step(st1, QuoteChar) == Scan(done, e + Backslashes(0) + [QuoteChar], true, true, 0);
    assert e + Backslashes(0) + [QuoteChar] == e + [QuoteChar];
    assert Quote(e + [Backslash]) == open + [QuoteChar];
  }

  /** An opening quote, a quotable argument and one backslash: quoting on, one backslash pending. */
  lemma ScanOpenQuoteBackslash(done: seq<string>, e: string)
    requires QuotableArgument(e)
    ensures ScanAll(Idle(done), [QuoteChar] + e + [Backslash]) == Scan(done, e, true, true, 1)
  {
    var start := Step(Idle(done), QuoteChar);
    assert start == Scan(done, "", true, true, 0);
    ScanOne(Idle(done), QuoteChar);
    ScanAppend(Idle(done), [QuoteChar], e);
    ScanInsideQuotes(done, "", e);
    assert "" + e == e;
    var st := ScanAll(start, e);
    assert st.slashes == 0 && st.cur == e;
    ScanSnoc(Idle(done), [QuoteChar] + e, Backslash);
    assert Step(st, Backslash) == Scan(done, e, true, true, 1);
  }

  /**
   * The scanner after the first argument and the second one, whose closing
   * quote was escaped: still inside quotes, the quote and the blank kept.
   */
  lemma ScanPastEscapedQuote(t: string, e: string)
    requires QuotableArgument(t) && QuotableArgument(e)
    ensures ScanAll(Idle([]), Quote(t) + " " + Quote(e + [Backslash]) + " ")
         == Scan([t], e + [QuoteChar] + " ", true, true, 0)
  {
    var p1 := Quote(t) + " ";
    ScanQuotedThenBlank([], t);
    assert [] + [t] == [t];
    var p2 := p1 + Quote(e + [Backslash]);
    ScanAppend(Idle([]), p1, Quote(e + [Backslash]));
    ScanEscapedClosingQuote([t], e);
    var st2 := Scan([t], e + [QuoteChar], true, true, 0);
    assert ScanAll(Idle([]), p2) == st2;
    ScanSnoc(Idle([]), p2, ' ');
    assert Step(st2, ' ') == Scan([t], e + [QuoteChar] + " ", true, true, 0);
  }

  /**
   * Three quoted arguments of which the middle one ends in a backslash split
   * into two: the third is swallowed by the second.
   */
  lemma SplitSwallowsAfterEscapedQuote(t: string, e: string, x: string)
    requires QuotableArgument(t) && QuotableArgument(e) && PlainArgument(x) && x[|x| - 1] != Backslash
    ensures SplitArguments(Quote(t) + " " + Quote(e + [Backslash]) + " " + Quote(x))
         == [t, e + [QuoteChar] + " " + x]
  {
    var p3 := Quote(t) + " " + Quote(e + [Backslash]) + " ";
    ScanPastEscapedQuote(t, e);
    var st3 := Scan([t], e + [QuoteChar] + " ", true, true, 0);
    var p4 := p3 + [QuoteChar];
    ScanSnoc(Idle([]), p3, QuoteChar);
    var st4 := Step(st3, QuoteChar);
    assert st4 == Scan([t], e + [QuoteChar] + " ", true, false, 0);
    var p5 := p4 + x;
    ScanAppend(Idle([]), p4, x);
    ScanPlain([t], e + [QuoteChar] + " ", true, x);
    var st5 := ScanAll(st4, x);
    assert st5.slashes == 0 && st5.cur == e + [QuoteChar] + " " + x;
    var p6 := p5 + [QuoteChar];
    ScanSnoc(Idle([]), p5, QuoteChar);
    var st6 := Step(st5, QuoteChar);
    assert st6 == Scan([t], e + [QuoteChar] + " " + x, true, true, 0);
    assert Finish(st6) == [t, e + [QuoteChar] + " " + x + Backslashes(0)];
    assert e + [QuoteChar] + " " + x + Backslashes(0) == e + [QuoteChar] + " " + x;
    assert p3 + Quote(x) == p6;
  }
}
