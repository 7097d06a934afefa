/** Sequencing of an axis: the list of segments, built from text, and the walk through it point by point. */
module AxisNc {
  import opened Words
  import opened Trajectory
  import opened Wrappers

  const MAX_SEGMENTS: nat := 9

  datatype Status = Stop | Ready | Running | PreStop

  // ---- The walk ----

  /** Where the walk is: a point of a segment. */
  datatype Cursor = Cursor(seg: nat, point: nat, status: Status)

  /** A segment takes one call even if it has no points. */
  function Calls(points: nat): nat {
    if points == 0 then 1 else points
  }

  /** The calls the first n segments take. */
  function Offset(points: seq<nat>, n: nat): nat
    requires n <= |points|
  {
    if n == 0 then 0 else Offset(points, n - 1) + Calls(points[n - 1])
  }

  predicate InWalk(points: seq<nat>, c: Cursor) {
    c.seg < |points| && c.point < Calls(points[c.seg])
  }

  /** The number of calls from the start of the list to the cursor. */
  function At(points: seq<nat>, c: Cursor): nat
    requires InWalk(points, c)
  {
    Offset(points, c.seg) + c.point
  }

  /** What one call does to the cursor. */
  function Step(points: seq<nat>, cyclic: bool, c: Cursor): (c': Cursor)
    requires InWalk(points, c) && (cyclic ==> |points| >= 2)
    ensures InWalk(points, c')
  {
    if c.point + 1 < points[c.seg] then c.(point := c.point + 1)
    else if c.seg + 1 < |points| then Cursor(c.seg + 1, 0, c.status)
    else if cyclic && c.status != PreStop then Cursor(1, 0, c.status)
    else Cursor(0, 0, Stop)
  }

  function Steps(points: seq<nat>, cyclic: bool, c: Cursor, k: nat): (c': Cursor)
    requires InWalk(points, c) && (cyclic ==> |points| >= 2)
    ensures InWalk(points, c')
  {
    if k == 0 then c else Step(points, cyclic, Steps(points, cyclic, c, k - 1))
  }

  lemma {:induction false} OffsetGrows(points: seq<nat>, i: nat, j: nat)
    requires i < j <= |points|
    ensures Offset(points, i) + Calls(points[i]) <= Offset(points, j)
  {
    if i + 1 < j {
      OffsetGrows(points, i, j - 1);
    }
  }

  /** A call count below the total is the position of one cursor only. */
  lemma AtIsInjective(points: seq<nat>, c: Cursor, d: Cursor)
    requires InWalk(points, c) && InWalk(points, d) && At(points, c) == At(points, d)
    ensures c.seg == d.seg && c.point == d.point
  {
    if c.seg < d.seg {
      OffsetGrows(points, c.seg, d.seg);
    } else if d.seg < c.seg {
      OffsetGrows(points, d.seg, c.seg);
    }
  }

  lemma StepAt(points: seq<nat>, cyclic: bool, c: Cursor)
    requires InWalk(points, c) && (cyclic ==> |points| >= 2)
    ensures At(points, c) < Offset(points, |points|)
    ensures var c' := Step(points, cyclic, c);
            if At(points, c) + 1 < Offset(points, |points|) then
              At(points, c') == At(points, c) + 1 && c'.status == c.status
            else if cyclic && c.status != PreStop then
              At(points, c') == Calls(points[0]) && c'.status == c.status
            else c' == Cursor(0, 0, Stop)
  {
    OffsetGrows(points, c.seg, |points|);
    if c.seg + 1 < |points| {
      OffsetGrows(points, c.seg + 1, |points|);
    }
    assert cyclic ==> Offset(points, 1) == Offset(points, 0) + Calls(points[0]);
  }

  /**
   A run that does not go around stops, at the start of the list, after exactly the calls that were left,
   and walks through every point in order until then.
   */
  lemma {:induction false} RunStops(points: seq<nat>, cyclic: bool, c: Cursor, k: nat)
    requires InWalk(points, c) && (cyclic ==> |points| >= 2)
    requires !cyclic || c.status == PreStop
    requires k <= Offset(points, |points|) - At(points, c)
    ensures var d := Steps(points, cyclic, c, k);
            if k < Offset(points, |points|) - At(points, c) then
              At(points, d) == At(points, c) + k && d.status == c.status
            else k > 0 && d == Cursor(0, 0, Stop)
  {
    if k == 0 {
      StepAt(points, cyclic, c);
    } else {
      RunStops(points, cyclic, c, k - 1);
      StepAt(points, cyclic, Steps(points, cyclic, c, k - 1));
    }
  }

  /** A run that does not go around visits every point of every segment, each in one call only. */
  lemma EveryPointOnce(points: seq<nat>, seg: nat, point: nat) returns (k: nat)
    requires seg < |points| && (point < points[seg] || (point == 0 && points[seg] == 0))
    ensures InWalk(points, Cursor(0, 0, Running)) && k < Offset(points, |points|)
    ensures Steps(points, false, Cursor(0, 0, Running), k) == Cursor(seg, point, Running)
    ensures forall j :: 0 <= j < Offset(points, |points|) && j != k ==>
      var d := Steps(points, false, Cursor(0, 0, Running), j); d.seg != seg || d.point != point
  {
    var c, start := Cursor(seg, point, Running), Cursor(0, 0, Running);
    OffsetGrows(points, seg, |points|);
    assert Offset(points, 0) == 0;
    hide Steps;
    k := At(points, c);
    RunStops(points, false, start, k);
    AtIsInjective(points, Steps(points, false, start, k), c);
    forall j | 0 <= j < Offset(points, |points|) && j != k
      ensures var d := Steps(points, false, start, j); d.seg != seg || d.point != point
    {
      RunStops(points, false, start, j);
    }
  }

  /** And it visits nothing else: a call is for a point of its segment, or the only one of a segment without points. */
  lemma OnlyPoints(points: seq<nat>, cyclic: bool, c: Cursor, k: nat)
    requires InWalk(points, c) && (cyclic ==> |points| >= 2)
    ensures var d := Steps(points, cyclic, c, k);
            d.seg < |points| && (d.point < points[d.seg] || (d.point == 0 && points[d.seg] == 0))
  {
  }

  /** A count that runs to total once and then goes around from first to total. */
  function Around(first: nat, total: nat, k: nat): nat {
    if k < total || total <= first then k else first + (k - total) % (total - first)
  }

  lemma AroundNext(first: nat, total: nat, k: nat)
    requires first < total
    ensures Around(first, total, 0) == 0 && Around(first, total, k) < total
    ensures Around(first, total, k + 1) == if Around(first, total, k) + 1 < total then Around(first, total, k) + 1 else first
  {
    if k >= total {
      LapStep(k - total, total - first);
      assert k - total + 1 == k + 1 - total;
    } else if k + 1 == total {
      assert 0 % (total - first) == 0;
    }
  }

  /** Position after k calls of a cyclic run: once through the list, then around all segments but the first. */
  function Lap(points: seq<nat>, k: nat): nat
    requires |points| >= 2
  {
    Around(Calls(points[0]), Offset(points, |points|), k)
  }

  lemma LapStep(x: nat, d: nat)
    requires 0 < d
    ensures (x + 1) % d == if x % d + 1 == d then 0 else x % d + 1
  {
    if x % d + 1 == d {
      DivModUnique(x + 1, d, x / d + 1, 0);
    } else {
      DivModUnique(x + 1, d, x / d, x % d + 1);
    }
  }

  lemma LapNext(points: seq<nat>, k: nat)
    requires |points| >= 2
    ensures Calls(points[0]) < Offset(points, |points|) && Lap(points, 0) == 0 && Lap(points, k) < Offset(points, |points|)
    ensures Lap(points, k + 1)
         == if Lap(points, k) + 1 < Offset(points, |points|) then Lap(points, k) + 1 else Calls(points[0])
  {
    OffsetGrows(points, 1, |points|);
    assert Offset(points, 1) == Offset(points, 0) + Calls(points[0]);
    AroundNext(Calls(points[0]), Offset(points, |points|), k);
  }

  /** A cyclic run goes through segment 0 once, then through segments 1 to the last again and again. */
  lemma {:induction false} CyclicRun(points: seq<nat>, k: nat)
    requires |points| >= 2
    ensures var d := Steps(points, true, Cursor(0, 0, Running), k);
            d.status == Running && At(points, d) == Lap(points, k)
  {
    hide Lap, Step;
    if k == 0 {
      LapNext(points, 0);
      assert Offset(points, 0) == 0;
    } else {
      LapNext(points, k - 1);
      CyclicRun(points, k - 1);
      StepAt(points, true, Steps(points, true, Cursor(0, 0, Running), k - 1));
    }
  }

  /** Ended by PreStop, a cyclic run stops at the end of the lap it is in. */
  lemma PreStopEndsLap(points: seq<nat>, k: nat)
    requires |points| >= 2
    ensures var d := Steps(points, true, Cursor(0, 0, Running), k).(status := PreStop);
            var left := Offset(points, |points|) - Lap(points, k);
            left > 0 && Steps(points, true, d, left) == Cursor(0, 0, Stop)
            && forall j :: 0 <= j < left ==> Steps(points, true, d, j).status == PreStop
  {
    var d := Steps(points, true, Cursor(0, 0, Running), k).(status := PreStop);
    CyclicRun(points, k);
    LapNext(points, k);
    forall j | 0 <= j <= Offset(points, |points|) - Lap(points, k)
      ensures j < Offset(points, |points|) - Lap(points, k) ==> Steps(points, true, d, j).status == PreStop
      ensures j == Offset(points, |points|) - Lap(points, k) ==> Steps(points, true, d, j) == Cursor(0, 0, Stop)
    {
      RunStops(points, true, d, j);
    }
  }

  // ---- The text ----

  /** strchr: the text from the first c on. */
  function StrChr(p: string, c: char): (r: Option<string>)
    ensures r.Some? ==> |r.value| <= |p| && r.value != "" && r.value[0] == c
  {
    if p == "" then None else if p[0] == c then Some(p) else StrChr(p[1..], c)
  }

  function SkipBlank(p: string): (r: string)
    ensures |r| <= |p|
  {
    if p != "" && p[0] == ' ' then SkipBlank(p[1..]) else p
  }

  predicate IsDigit(c: char) {
    '0' <= c <= '9'
  }

  predicate IsSpace(c: char) {
    c == ' ' || ('\t' <= c <= '\r')
  }

  function SkipSpace(p: string): string {
    if p != "" && IsSpace(p[0]) then SkipSpace(p[1..]) else p
  }

  /** The digits at the start of the text, read after n, and the rest. */
  function ScanDigits(p: string, n: nat): (nat, string) {
    if p != "" && IsDigit(p[0]) then ScanDigits(p[1..], 10 * n + (p[0] as int - '0' as int)) else (n, p)
  }

  /** %d of sscanf. */
  function ScanInt(s: string): Option<(int, string)> {
    var p := SkipSpace(s);
    var sign := p != "" && (p[0] == '-' || p[0] == '+');
    var q := if sign then p[1..] else p;
    if q == "" || !IsDigit(q[0]) then None
    else
      var (n: int, rest) := ScanDigits(q, 0);
      Some((if sign && p[0] == '-' then -n else n, rest))
  }

  /** sscanf of "(%d:%d)" assigning both numbers; it does so whether or not the last parenthesis is there. */
  function ScanPair(p: string): (r: Option<(int, int)>)
    ensures r.Some? ==> p != "" && p[0] == '('
  {
    if p == "" || p[0] != '(' then None
    else match ScanInt(p[1..])
      case None => None
      case Some((v, q)) =>
        if q == "" || q[0] != ':' then None
        else match ScanInt(q[1..])
          case None => None
          case Some((t, _)) => Some((v, t))
  }

  function Parens(p: string): nat {
    if p == "" then 0 else (if p[0] == '(' then 1 else 0) + Parens(p[1..])
  }

  lemma {:induction false} ParensOfStrChr(p: string, c: char)
    ensures match StrChr(p, c)
      case None => c == '(' ==> Parens(p) == 0
      case Some(q) => Parens(q) <= Parens(p) && (c == '(' ==> Parens(q) == Parens(p))
  {
    if p != "" && p[0] != c {
      ParensOfStrChr(p[1..], c);
    }
  }

  lemma {:induction false} ParensOfSkipBlank(p: string)
    ensures Parens(SkipBlank(p)) == Parens(p)
  {
    if p != "" && p[0] == ' ' {
      ParensOfSkipBlank(p[1..]);
    }
  }

  /** The entries the second loop finds: pairs, each after the comma that follows the last; None where it gives up. */
  function Entries(p: string): Option<seq<(int, int)>>
    decreases |p|
  {
    var q := SkipBlank(p);
    match ScanPair(q)
    case None => None
    case Some(e) =>
      match StrChr(SkipBlank(q), ',')
      case None => Some([e])
      case Some(r) =>
        match Entries(r[1..])
        case None => None
        case Some(rest) => Some([e] + rest)
  }

  /** There are no more entries than parentheses. */
  lemma {:induction false} EntriesFit(p: string)
    ensures Entries(p).Some? ==> 1 <= |Entries(p).value| <= Parens(p)
    decreases |p|
  {
    var q := SkipBlank(p);
    if ScanPair(q).Some? && StrChr(SkipBlank(q), ',').Some? {
      AfterEntry(p);
      EntriesFit(StrChr(SkipBlank(q), ',').value[1..]);
    } else if ScanPair(q).Some? {
      ParensOfSkipBlank(p);
    }
  }

  /** An entry uses up a parenthesis. */
  lemma AfterEntry(p: string)
    requires var q := SkipBlank(p); ScanPair(q).Some? && StrChr(SkipBlank(q), ',').Some?
    ensures Parens(StrChr(SkipBlank(SkipBlank(p)), ',').value[1..]) < Parens(p)
  {
    var q := SkipBlank(p);
    ParensOfSkipBlank(p);
    assert SkipBlank(q) == q && StrChr(q, ',') == StrChr(q[1..], ',');
    ParensOfStrChr(q[1..], ',');
  }

  // ---- Well-formed lists ----

  function Digit(d: nat): char
    requires d < 10
  {
    ('0' as int + d) as char
  }

  function Digits(n: nat): (s: string)
    ensures s != "" && forall c :: c in s ==> IsDigit(c)
  {
    if n < 10 then [Digit(n)] else Digits(n / 10) + [Digit(n % 10)]
  }

  function ShowInt(v: int): (s: string) {
    if v < 0 then "-" + Digits(-v) else Digits(v)
  }

  function ShowPair(e: (int, int)): string {
    "(" + ShowInt(e.0) + ":" + ShowInt(e.1) + ")"
  }

  /** Pairs with commas between them. */
  function Show(es: seq<(int, int)>): string
    requires es != []
  {
    if |es| == 1 then ShowPair(es[0]) else ShowPair(es[0]) + "," + Show(es[1..])
  }

  lemma {:induction false} ScanShownDigits(n: nat, r: string)
    ensures ScanDigits(Digits(n) + r, 0) == ScanDigits(r, n)
    decreases n
  {
    if n < 10 {
      assert ([Digit(n)] + r)[1..] == r;
    } else {
      var d := [Digit(n % 10)];
      assert Digits(n) + r == Digits(n / 10) + (d + r);
      ScanShownDigits(n / 10, d + r);
      assert (d + r)[1..] == r;
    }
  }

  lemma ScanShownInt(v: int, r: string)
    requires r == "" || !IsDigit(r[0])
    ensures ScanInt(ShowInt(v) + r) == Some((v, r))
  {
    hide Digits, ScanDigits;
    var n := if v < 0 then -v else v;
    var p := ShowInt(v) + r;
    ScanShownDigits(n, r);
    StartsWithDigit(n, r);
    assert ScanDigits(r, n) == (n, r) by {
      NoDigits(r, n);
    }
    if v < 0 {
      assert p[0] == '-' && p[1..] == Digits(n) + r;
    } else {
      assert p == Digits(n) + r;
    }
    assert SkipSpace(p) == p;
  }

  lemma StartsWithDigit(n: nat, r: string)
    ensures Digits(n) + r != "" && IsDigit((Digits(n) + r)[0])
  {
    assert Digits(n)[0] in Digits(n);
  }

  lemma NoDigits(r: string, n: nat)
    requires r == "" || !IsDigit(r[0])
    ensures ScanDigits(r, n) == (n, r)
  {
  }

  lemma ScanShownPair(e: (int, int), r: string)
    ensures ScanPair(ShowPair(e) + r) == Some(e)
  {
    hide ScanInt, ShowInt;
    var p, close := ShowPair(e) + r, ")" + r;
    var q := ":" + (ShowInt(e.1) + close);
    assert p[0] == '(' && p[1..] == ShowInt(e.0) + q;
    ScanShownInt(e.0, q);
    assert q[0] == ':' && q[1..] == ShowInt(e.1) + close;
    ScanShownInt(e.1, close);
  }

  lemma {:induction false} Passed(a: string, b: string, c: char)
    requires c !in a
    ensures StrChr(a + b, c) == StrChr(b, c)
    ensures c == '(' ==> Parens(a + b) == Parens(b)
  {
    if a == "" {
      assert a + b == b;
    } else {
      assert (a + b)[1..] == a[1..] + b;
      Passed(a[1..], b, c);
    }
  }

  /** What is between the parentheses. */
  lemma PairBody(e: (int, int)) returns (body: string)
    ensures ShowPair(e) == "(" + body && ',' !in body && '(' !in body
  {
    hide Digits;
    body := ShowInt(e.0) + ":" + ShowInt(e.1) + ")";
    IntBody(e.0);
    IntBody(e.1);
    assert ShowPair(e) == "(" + body;
  }

  lemma IntBody(v: int)
    ensures ',' !in ShowInt(v) && '(' !in ShowInt(v)
  {
    hide Digits;
  }

  lemma PairThen(e: (int, int), rest: string)
    ensures var p := ShowPair(e) + rest;
            ScanPair(p) == Some(e) && SkipBlank(p) == p && StrChr(p, ',') == StrChr(rest, ',')
            && Parens(p) == 1 + Parens(rest)
  {
    var body := PairBody(e);
    hide ScanPair, StrChr, ShowPair;
    var p := ShowPair(e) + rest;
    ScanShownPair(e, rest);
    Passed(ShowPair(e), rest, ',');
    assert p[0] == '(' && p[1..] == body + rest;
    Passed(body, rest, '(');
  }

  lemma {:induction false} NothingIn(p: string)
    requires ',' !in p && '(' !in p
    ensures StrChr(p, ',') == None && Parens(p) == 0
  {
    if p != "" {
      NothingIn(p[1..]);
    }
  }

  /** A list that is written out is read back, whatever follows it without a comma or an opening parenthesis. */
  lemma {:induction false} ReadBack(es: seq<(int, int)>, tail: string)
    requires es != [] && ',' !in tail && '(' !in tail
    ensures Entries(Show(es) + tail) == Some(es) && Parens(Show(es) + tail) == |es|
    ensures ScanPair(Show(es) + tail) == Some(es[0])
    decreases |es|
  {
    hide ScanPair, ShowPair;
    var e, p := es[0], Show(es) + tail;
    if |es| == 1 {
      PairThen(e, tail);
      NothingIn(tail);
      assert es == [e];
    } else {
      var rest := "," + (Show(es[1..]) + tail);
      assert p == ShowPair(e) + rest;
      PairThen(e, rest);
      assert rest[1..] == Show(es[1..]) + tail;
      ReadBack(es[1..], tail);
      assert es == [e] + es[1..];
    }
  }

  /** The count is of opening parentheses and of nothing else. */
  lemma {:induction false} ParensAreCounted(p: string)
    ensures Parens(p) == multiset(p)['(']
  {
    if p != "" {
      ParensAreCounted(p[1..]);
      assert p == [p[0]] + p[1..];
    }
  }

  predicate Blank(s: string) {
    forall i :: 0 <= i < |s| ==> s[i] == ' '
  }

  /** White space of isspace. */
  predicate White(s: string) {
    forall c :: c in s ==> c in " \t\n\r" || c as int == 11 || c as int == 12
  }

  lemma {:induction false} WhiteSkipped(ws: string, r: string)
    requires White(ws)
    ensures SkipSpace(ws + r) == SkipSpace(r)
  {
    if ws == "" {
      assert ws + r == r;
    } else {
      assert ws[0] in ws && (ws + r)[1..] == ws[1..] + r;
      WhiteSkipped(ws[1..], r);
    }
  }

  /** %d skips white space, and takes a plus sign. */
  lemma ScanSpacedInt(ws: string, plus: bool, v: int, r: string)
    requires White(ws) && (r == "" || !IsDigit(r[0])) && (plus ==> v >= 0)
    ensures ScanInt(ws + ((if plus then "+" else "") + ShowInt(v) + r)) == Some((v, r))
  {
    var p := (if plus then "+" else "") + ShowInt(v) + r;
    WhiteSkipped(ws, p);
    ScanShownInt(v, r);
    StartsWithDigit(if v < 0 then -v else v, r);
    hide Digits, ScanDigits;
    var q := ShowInt(v) + r;
    if plus {
      assert p[0] == '+' && p[1..] == q && q == Digits(v) + r;
      assert SkipSpace(p) == p && SkipSpace(q) == q;
    } else {
      assert p == q;
    }
    SkipsOnce(q);
  }

  lemma SkipsOnce(p: string)
    ensures SkipSpace(SkipSpace(p)) == SkipSpace(p)
  {
  }

  /** How an entry may be written: with white space and plus signs before its numbers. */
  datatype Written = Written(ws: string, plus: bool, n: int) {
    predicate Valid() { White(ws) && (plus ==> n >= 0) }
    function Text(): string { ws + ((if plus then "+" else "") + ShowInt(n)) }
  }

  lemma ScanWritten(w: Written, r: string)
    requires w.Valid() && (r == "" || !IsDigit(r[0]))
    ensures ScanInt(w.Text() + r) == Some((w.n, r))
  {
    ScanSpacedInt(w.ws, w.plus, w.n, r);
    assert w.Text() + r == w.ws + ((if w.plus then "+" else "") + ShowInt(w.n) + r);
  }

  /**
   One entry, however it is written: blanks in front of it are skipped, the closing parenthesis is not asked for, and
   anything up to the next comma is ignored, behind which the next entry is read.
   */
  lemma ReadsEntry(blanks: string, v: Written, t: Written, junk: string, rest: Option<string>)
    requires Blank(blanks) && v.Valid() && t.Valid()
    requires ',' !in junk && (junk == "" || !IsDigit(junk[0]))
    ensures var tail := if rest.None? then "" else "," + rest.value;
            var p := "(" + v.Text() + ":" + t.Text() + junk + tail;
            && ScanPair(p) == Some((v.n, t.n))
            && Entries(blanks + p) == match rest
                 case None => Some([(v.n, t.n)])
                 case Some(r) => if Entries(r).None? then None else Some([(v.n, t.n)] + Entries(r).value)
  {
    var tail := if rest.None? then "" else "," + rest.value;
    var front := "(" + v.Text() + ":" + t.Text() + junk;
    var p := front + tail;
    assert ScanPair(p) == Some((v.n, t.n)) by {
      ScansEntry(v, t, junk + tail);
      assert p == "(" + v.Text() + ":" + t.Text() + (junk + tail);
    }
    assert SkipBlank(blanks + p) == p && SkipBlank(p) == p by {
      BlanksSkipped(blanks, p);
      assert p[0] == '(';
    }
    assert StrChr(p, ',') == StrChr(tail, ',') by {
      NoComma(v);
      NoComma(t);
      Passed(front, tail, ',');
    }
    hide ScanPair, SkipBlank, Written.Text;
    assert rest.Some? ==> tail[1..] == rest.value;
  }

  lemma ScansEntry(v: Written, t: Written, behind: string)
    requires v.Valid() && t.Valid() && (behind == "" || !IsDigit(behind[0]))
    ensures ScanPair("(" + v.Text() + ":" + t.Text() + behind) == Some((v.n, t.n))
  {
    hide ScanInt, Written.Text;
    var p, q := "(" + v.Text() + ":" + t.Text() + behind, ":" + (t.Text() + behind);
    ScanWritten(v, q);
    ScanWritten(t, behind);
    assert p[0] == '(' && p[1..] == v.Text() + q && q[1..] == t.Text() + behind;
  }

  lemma NoComma(w: Written)
    requires w.Valid()
    ensures ',' !in w.Text()
  {
    IntBody(w.n);
  }

  lemma {:induction false} BlanksSkipped(blanks: string, p: string)
    requires Blank(blanks)
    ensures SkipBlank(blanks + p) == SkipBlank(p)
  {
    if blanks == "" {
      assert blanks + p == p;
    } else {
      assert (blanks + p)[1..] == blanks[1..] + p;
      BlanksSkipped(blanks[1..], p);
    }
  }

  /** What is not an entry ends the reading with an error. */
  lemma NoEntry(blanks: string, p: string)
    requires Blank(blanks) && (p == "" || p[0] !in " (")
    ensures Entries(blanks + p) == None
  {
    BlanksSkipped(blanks, p);
  }

  // ---- What is built from the entries ----

  /** Points of a segment that lasts time milliseconds. */
  function PointsFor(time: int, periodNs: u32): u32
    requires periodNs > 0
  {
    Wrap32(Wrap32(time) * 1000000 / periodNs)
  }

  /**
   As many points as whole periods fit into ns nanoseconds; if they are 2^32 or more, short of them by a multiple of
   that.
   */
  ghost predicate PeriodsIn(n: nat, ns: nat, periodNs: nat)
    requires periodNs > 0
  {
    if ns < 0x1_0000_0000 * periodNs then n * periodNs <= ns < (n + 1) * periodNs
    else (ns - n * periodNs) % (0x1_0000_0000 * periodNs) < periodNs
  }

  /** The points last for time milliseconds, an unsigned 32-bit number, to less than a period. */
  ghost predicate Lasts(n: nat, time: int, periodNs: u32)
    requires periodNs > 0
  {
    PeriodsIn(n, time % 0x1_0000_0000 * 1000000, periodNs)
  }

  lemma PointsLast(time: int, periodNs: u32)
    requires periodNs > 0
    ensures Lasts(PointsFor(time, periodNs), time, periodNs)
  {
    hide PeriodsIn;
    WholePeriods(Wrap32(time) * 1000000, periodNs);
  }

  lemma WholePeriods(ns: nat, periodNs: nat)
    requires periodNs > 0
    ensures PeriodsIn(ns / periodNs % 0x1_0000_0000, ns, periodNs)
  {
    hide PeriodsIn;
    if ns < 0x1_0000_0000 * periodNs {
      SmallQuotient(ns, periodNs, 0x1_0000_0000);
      SmallRemainder(ns / periodNs, 0x1_0000_0000);
      FewPeriods(ns, periodNs);
    } else {
      ManyPeriods(ns, periodNs);
    }
  }

  lemma FewPeriods(ns: nat, periodNs: nat)
    requires periodNs > 0 && ns < 0x1_0000_0000 * periodNs
    ensures PeriodsIn(ns / periodNs, ns, periodNs)
  {
    QuotientBounds(ns, periodNs);
  }

  lemma ManyPeriods(ns: nat, periodNs: nat)
    requires periodNs > 0 && ns >= 0x1_0000_0000 * periodNs
    ensures PeriodsIn(ns / periodNs % 0x1_0000_0000, ns, periodNs)
  {
    WrappedQuotient(ns, periodNs, 0x1_0000_0000);
  }

  lemma SmallRemainder(q: nat, bound: nat)
    requires q < bound
    ensures q % bound == q
  {
  }

  lemma SmallQuotient(x: nat, d: nat, bound: nat)
    requires d > 0 && x < bound * d
    ensures x / d < bound
  {
    if x / d >= bound {
      MulAtLeast(x / d - bound + 1, d);
    }
  }

  lemma WrappedQuotient(x: nat, d: nat, w: nat)
    requires d > 0 && w > 0
    ensures w * d > 0 && (x - x / d % w * d) % (w * d) < d
  {
    var q := x / d;
    var m := q / w;
    assert q == m * w + q % w && x == q * d + x % d;
    assert w * d >= d by {
      MulAtLeast(w, d);
    }
    assert x - q % w * d == m * (w * d) + x % d by {
      assert q * d == m * w * d + q % w * d;
      assert m * w * d == m * (w * d);
    }
    DivModUnique(x - q % w * d, w * d, m, x % d);
  }

  function OriginOf(es: seq<(int, int)>, i: nat, bias: real): real
    requires i <= |es|
  {
    if i == 0 then bias else bias + es[i - 1].0 as real
  }

  /** Each of the first segments goes from the target of the one before, the first from the bias, to its entry. */
  ghost predicate Follows(tp: seq<Segment>, es: seq<(int, int)>, bias: real, periodNs: u32)
    requires periodNs > 0
  {
    && |es| <= |tp|
    && forall i :: 0 <= i < |es| ==>
         && tp[i].pointsNum == PointsFor(es[i].1, periodNs) && tp[i].currentPoint == 0
         && tp[i].origin == OriginOf(es, i, bias) && tp[i].target == bias + es[i].0 as real
  }

  /** The first n segments have been planned in slots that held those of tp0. */
  ghost predicate AllSettled(l: Limits, tp: seq<Segment>, tp0: seq<Segment>, n: nat)
    requires l.Positive()
  {
    n <= |tp| == |tp0| && forall i :: 0 <= i < n ==> Settled(l, tp[i], tp0[i])
  }

  lemma NoneSettled(l: Limits, tp: seq<Segment>)
    requires l.Positive()
    ensures AllSettled(l, tp, tp, 0)
  {
  }

  lemma SettledNext(l: Limits, tp: seq<Segment>, tp': seq<Segment>, tp0: seq<Segment>, n: nat)
    requires l.Positive() && AllSettled(l, tp, tp0, n) && n < |tp| == |tp'|
    requires forall j :: 0 <= j < n ==> tp'[j] == tp[j]
    requires Settled(l, tp'[n], tp0[n])
    ensures AllSettled(l, tp', tp0, n + 1)
  {
    hide Settled;
  }

  /** The way from the entry before; the bias has no part in it. */
  function Distance(es: seq<(int, int)>, i: nat): real
    requires i < |es|
  {
    Abs((es[i].0 - if i == 0 then 0 else es[i - 1].0) as real)
  }

  /** The entry leaves enough points for its way. */
  ghost predicate EntryFeasible(l: Limits, es: seq<(int, int)>, i: nat, periodNs: u32)
    requires l.Positive() && i < |es| && periodNs > 0
  {
    Feasible(l, PointsFor(es[i].1, periodNs) as real, Distance(es, i))
  }

  lemma MoveOfEntry(tp: seq<Segment>, es: seq<(int, int)>, bias: real, periodNs: u32, i: nat)
    requires periodNs > 0 && Follows(tp, es, bias, periodNs) && i < |es|
    ensures |es| <= |tp|
    ensures tp[i].pointsNum == PointsFor(es[i].1, periodNs) && tp[i].target == bias + es[i].0 as real
    ensures Abs(tp[i].target - tp[i].origin) == Distance(es, i)
    ensures i + 1 < |es| ==> tp[i + 1].origin == tp[i].target
  {
    assert tp[i].origin == OriginOf(es, i, bias);
  }

  /**
   The parser ignores what the planner returns: a parsed segment holds the trapezoid of its entry exactly if that is
   feasible, and otherwise the plan of whatever its slot held before.
   */
  lemma PlannedByEntry(l: Limits, tp: seq<Segment>, tp0: seq<Segment>, es: seq<(int, int)>, bias: real, periodNs: u32,
                       i: nat)
    requires l.Positive() && periodNs > 0 && Follows(tp, es, bias, periodNs) && AllSettled(l, tp, tp0, |es|) && i < |es|
    ensures (exists t :: Planned(l, tp[i], t)) <==> EntryFeasible(l, es, i, periodNs)
    ensures !EntryFeasible(l, es, i, periodNs) ==> SamePlan(tp[i], tp0[i])
  {
    MoveOfEntry(tp, es, bias, periodNs, i);
    PlannedIffFeasible(l, tp[i], tp0[i]);
    hide Follows, PointsFor, Distance, Feasible, Planned;
  }

  /** A list with an entry that no trapezoid can cover is read like any other. */
  lemma InfeasibleAccepted(l: Limits, v: int, periodNs: u32)
    requires l.Positive() && v != 0 && periodNs > 0
    ensures var es := [(v, 0)];
            && Parses(Show(es), false) && Entries(Show(es)) == Some(es) && Parens(Show(es)) == 1
            && !EntryFeasible(l, es, 0, periodNs)
  {
    var es := [(v, 0)];
    assert Show(es) + "" == Show(es);
    ReadBack(es, "");
    assert PointsFor(0, periodNs) == 0;
    NoTimeNoMove(l, Distance(es, 0));
  }

  function PointsOfEntries(es: seq<(int, int)>, periodNs: u32): (p: seq<nat>)
    requires periodNs > 0
    ensures |p| == |es|
  {
    seq(|es|, i requires 0 <= i < |es| => PointsFor(es[i].1, periodNs))
  }

  /** Every parsed segment has the points of its entry's time. */
  ghost predicate AllLast(tp: seq<Segment>, es: seq<(int, int)>, periodNs: u32)
    requires periodNs > 0
  {
    |es| <= |tp| && forall i :: 0 <= i < |es| ==> Lasts(tp[i].pointsNum, es[i].1, periodNs)
  }

  lemma FollowsLast(tp: seq<Segment>, es: seq<(int, int)>, bias: real, periodNs: u32)
    requires periodNs > 0 && Follows(tp, es, bias, periodNs)
    ensures AllLast(tp, es, periodNs)
  {
    hide Lasts, PointsFor;
    forall i | 0 <= i < |es|
      ensures Lasts(tp[i].pointsNum, es[i].1, periodNs)
    {
      PointsLast(es[i].1, periodNs);
    }
  }

  /** The entries' times are unsigned 32-bit numbers, and so are the periods in them. */
  ghost predicate TimesFit(es: seq<(int, int)>, periodNs: u32) {
    forall i :: 0 <= i < |es| ==> 0 <= es[i].1 < 0x1_0000_0000 && es[i].1 * 1000000 < 0x1_0000_0000 * periodNs
  }

  /** The nanoseconds of the first n entries. */
  function Duration(es: seq<(int, int)>, n: nat): int
    requires n <= |es|
  {
    if n == 0 then 0 else Duration(es, n - 1) + es[n - 1].1 * 1000000
  }

  /** A run takes the entries' time, less than a period short for each, and no longer if each lasts a period. */
  lemma {:induction false} RunLasts(es: seq<(int, int)>, periodNs: u32, n: nat)
    requires periodNs > 0 && n <= |es| && TimesFit(es, periodNs)
    ensures var calls := Offset(PointsOfEntries(es, periodNs), n);
            && Duration(es, n) <= (calls + n) * periodNs
            && ((forall i :: 0 <= i < n ==> periodNs <= es[i].1 * 1000000) ==> calls * periodNs <= Duration(es, n))
  {
    hide Lasts, PointsFor, Calls;
    if n > 0 {
      RunLasts(es, periodNs, n - 1);
      var points := PointsOfEntries(es, periodNs);
      EntryLasts(es[n - 1].1, periodNs);
      var calls := Offset(points, n - 1);
      var c := Calls(points[n - 1]);
      Sums(calls, c, n - 1, periodNs);
    }
  }

  lemma Sums(a: nat, b: nat, n: nat, p: nat)
    ensures (a + b) * p == a * p + b * p
    ensures (a + b + (n + 1)) * p == (a + n) * p + (b + 1) * p
  {
  }

  lemma EntryLasts(time: int, periodNs: u32)
    requires periodNs > 0 && 0 <= time < 0x1_0000_0000 && time * 1000000 < 0x1_0000_0000 * periodNs
    ensures var c := Calls(PointsFor(time, periodNs));
            && time * 1000000 < (c + 1) * periodNs
            && (periodNs <= time * 1000000 ==> c * periodNs <= time * 1000000)
  {
    PointsLast(time, periodNs);
    hide PointsFor;
    SmallRemainder(time, 0x1_0000_0000);
    var n := PointsFor(time, periodNs);
    if n == 0 {
      Sums(0, 1, 0, periodNs);
    }
  }

  lemma FollowsFresh(tp: seq<Segment>, es: seq<(int, int)>, bias: real, periodNs: u32)
    requires periodNs > 0 && Follows(tp, es, bias, periodNs)
    ensures forall i :: 0 <= i < |es| ==>
      tp[i].currentPoint == 0 && tp[i].pointsNum == PointsFor(es[i].1, periodNs)
  {
  }

  /** A cyclic list comes back to the first entry. */
  function WithReturn(es: seq<(int, int)>, cyclic: bool): seq<(int, int)> {
    if cyclic && es != [] then es + [es[0]] else es
  }

  /** The moves join up, and the last one of a cyclic list ends where the lap begins. */
  lemma MovesJoin(tp: seq<Segment>, es: seq<(int, int)>, cyclic: bool, bias: real, periodNs: u32)
    requires periodNs > 0 && es != [] && Follows(tp, WithReturn(es, cyclic), bias, periodNs)
    ensures var n := |WithReturn(es, cyclic)|;
            && tp[0].origin == bias
            && (forall i :: 0 < i < n ==> tp[i].origin == tp[i - 1].target)
            && (cyclic ==> n >= 2 && tp[n - 1].target == tp[1].origin)
  {
    var all := WithReturn(es, cyclic);
    assert cyclic ==> all[|es|] == all[0];
  }

  lemma FollowsNext(tp: seq<Segment>, tp': seq<Segment>, es: seq<(int, int)>, e: (int, int), bias: real, periodNs: u32)
    requires periodNs > 0 && Follows(tp, es, bias, periodNs) && |es| < |tp| == |tp'|
    requires forall j :: 0 <= j < |es| ==> tp'[j] == tp[j]
    requires tp'[|es|].pointsNum == PointsFor(e.1, periodNs) && tp'[|es|].currentPoint == 0
    requires tp'[|es|].origin == OriginOf(es, |es|, bias) && tp'[|es|].target == bias + e.0 as real
    ensures Follows(tp', es + [e], bias, periodNs)
    ensures OriginOf(es + [e], |es| + 1, bias) == bias + e.0 as real
  {
    forall i | 0 <= i < |es| ensures OriginOf(es + [e], i, bias) == OriginOf(es, i, bias) {
    }
  }

  /** The entries of the whole text are those read so far and those of the text that is left. */
  ghost predicate Read(text: string, es: seq<(int, int)>, p: string) {
    Entries(text) == match Entries(p) case None => None case Some(rest) => Some(es + rest)
  }

  lemma ReadNext(text: string, es: seq<(int, int)>, p: string)
    requires Read(text, es, p)
    ensures match ScanPair(SkipBlank(p))
      case None => Entries(text) == None
      case Some(e) =>
        Parens(p) > 0
        && match StrChr(SkipBlank(SkipBlank(p)), ',')
          case None => Entries(text) == Some(es + [e])
          case Some(q) => q != "" && Read(text, es + [e], q[1..]) && Parens(q[1..]) < Parens(p)
  {
    var q := SkipBlank(p);
    match ScanPair(q) {
      case None =>
      case Some(e) =>
        ParensOfSkipBlank(p);
        match StrChr(SkipBlank(q), ',') {
          case None =>
          case Some(r) =>
            AfterEntry(p);
            assert Entries(r[1..]).Some? ==> es + ([e] + Entries(r[1..]).value) == es + [e] + Entries(r[1..]).value;
        }
    }
  }

  lemma ReadNothing(text: string)
    ensures Read(text, [], text)
  {
    assert Entries(text).Some? ==> [] + Entries(text).value == Entries(text).value;
  }

  lemma LastTarget(tp: seq<Segment>, es: seq<(int, int)>, bias: real, periodNs: u32)
    requires periodNs > 0 && es != [] && Follows(tp, es, bias, periodNs)
    ensures tp[|es| - 1].target == OriginOf(es, |es|, bias)
  {
  }

  /** The list is read, and its first entry can be read again if the list is to come back to it. */
  predicate Parses(text: string, cyclic: bool) {
    Entries(text).Some? && (cyclic ==> ScanPair(text).Some?)
  }

  /** The list comes back to the first entry only if no blank stands before it: that scan does not skip any. */
  lemma FirstEntry(text: string)
    requires Entries(text).Some?
    ensures ScanPair(text).Some? <==> SkipBlank(text) == text
    ensures ScanPair(text).Some? ==> ScanPair(text).value == Entries(text).value[0]
  {
  }

  /** Two pairs with no comma between them count as two, but only the first is read: the walk meets an unset segment. */
  lemma MissingComma(e: (int, int), f: (int, int))
    ensures Entries(ShowPair(e) + ShowPair(f)) == Some([e]) && Parens(ShowPair(e) + ShowPair(f)) == 2
  {
    hide ScanPair, ShowPair;
    PairThen(e, ShowPair(f));
    assert ShowPair(f) + "" == ShowPair(f);
    PairThen(f, "");
  }

  /** A blank before the first pair is skipped by the first scan but not by the one that closes a cyclic list. */
  lemma BlankRejectsCycle(es: seq<(int, int)>, tail: string)
    requires es != [] && ',' !in tail && '(' !in tail
    ensures Parses(" " + (Show(es) + tail), false) && !Parses(" " + (Show(es) + tail), true)
  {
    var p := Show(es) + tail;
    assert (" " + p)[1..] == p;
    ReadBack(es, tail);
    assert SkipBlank(p) == p;
    assert SkipBlank(" " + p) == p;
  }

  /**
   From the text to the walk: a written list is read entry by entry, its moves join, and its walk takes exactly
   the points of the entries, once or, if cyclic, around and around from the second segment.
   */
  lemma WrittenListRuns(tp: seq<Segment>, es: seq<(int, int)>, tail: string, cyclic: bool, bias: real, periodNs: u32,
                        k: nat)
    requires es != [] && ',' !in tail && '(' !in tail && periodNs > 0
    requires Follows(tp, WithReturn(es, cyclic), bias, periodNs)
    ensures Parses(Show(es) + tail, cyclic) && Entries(Show(es) + tail) == Some(es) && Parens(Show(es) + tail) == |es|
    ensures var all := WithReturn(es, cyclic);
            && tp[0].origin == bias && (forall i :: 0 < i < |all| ==> tp[i].origin == tp[i - 1].target)
            && (cyclic ==> tp[|all| - 1].target == tp[1].origin)
    ensures var points := PointsOfEntries(WithReturn(es, cyclic), periodNs);
            && InWalk(points, Cursor(0, 0, Running)) && (cyclic ==> |points| >= 2)
            && var d := Steps(points, cyclic, Cursor(0, 0, Running), k);
            if cyclic then d.status == Running && At(points, d) == Lap(points, k)
            else if k < Offset(points, |points|) then d.status == Running && At(points, d) == k
            else k == Offset(points, |points|) ==> d == Cursor(0, 0, Stop)
    ensures var all := WithReturn(es, cyclic);
            var points := PointsOfEntries(all, periodNs);
            TimesFit(all, periodNs) ==>
              && Duration(all, |all|) <= (Offset(points, |points|) + |all|) * periodNs
              && ((forall i :: 0 <= i < |all| ==> periodNs <= all[i].1 * 1000000) ==>
                    Offset(points, |points|) * periodNs <= Duration(all, |all|))
  {
    hide Steps, Lap, Entries, Show, Follows, TimesFit, Duration;
    if TimesFit(WithReturn(es, cyclic), periodNs) {
      RunLasts(WithReturn(es, cyclic), periodNs, |WithReturn(es, cyclic)|);
    }
    ReadBack(es, tail);
    MovesJoin(tp, es, cyclic, bias, periodNs);
    var points := PointsOfEntries(WithReturn(es, cyclic), periodNs);
    StartsAtZero(points);
    if cyclic {
      CyclicRun(points, k);
    } else if k <= Offset(points, |points|) {
      RunStops(points, false, Cursor(0, 0, Running), k);
    }
  }

  // ---- The axis ----

  /** Conversion of a double to int64_t, truncating, then of its low 32 bits to int32_t. */
  function ToInt32(x: real): int {
    var w := Wrap32(if x < 0.0 then -((-x).Floor) else x.Floor);
    if w < 0x8000_0000 then w else w - TWO32
  }

  /** m is x without its fraction. */
  ghost predicate Truncates(m: int, x: real) {
    if x >= 0.0 then m as real <= x < m as real + 1.0 else m as real - 1.0 < x <= m as real
  }

  /** An int32_t that agrees with the truncated x modulo 2^32. */
  ghost predicate IsInt32Of(p: int, x: real) {
    -0x8000_0000 <= p < 0x8000_0000 && exists m :: Truncates(m, x) && (p - m) % 0x1_0000_0000 == 0
  }

  lemma ToInt32Means(x: real)
    ensures IsInt32Of(ToInt32(x), x)
  {
    var m := if x < 0.0 then -((-x).Floor) else x.Floor;
    assert Truncates(m, x);
    var q := m / 0x1_0000_0000;
    var w := Wrap32(m);
    assert m == q * 0x1_0000_0000 + w;
    if w < 0x8000_0000 {
      DivModUnique(w - m, 0x1_0000_0000, -q, 0);
    } else {
      DivModUnique(w - 0x1_0000_0000 - m, 0x1_0000_0000, -q - 1, 0);
    }
  }

  /** p is the profile at point k, turned, moved to the origin, scaled and truncated. */
  ghost predicate IsPosition(p: int, l: Limits, scale: u32, g: Segment, k: nat) {
    exists x :: IsInt32Of(p, x) && x == (Profile(l, g, k) * g.direction as real + g.origin) * scale as real
  }

  /** A length in the axis' own unit. */
  function Units(x: real, scale: u32): real {
    x * scale as real
  }

  /** The position of a segment's k-th point in the axis' own unit. */
  function PositionOf(l: Limits, scale: u32, g: Segment, k: nat): real {
    Units(Profile(l, g, k) * g.direction as real + g.origin, scale)
  }

  lemma PositionIs(l: Limits, scale: u32, g: Segment, k: nat)
    ensures IsPosition(ToInt32(PositionOf(l, scale, g, k)), l, scale, g, k)
  {
    hide ToInt32, Profile, IsInt32Of;
    ToInt32Means(PositionOf(l, scale, g, k));
  }

  /** Two points of a segment are as far apart as their profile, turned and scaled. */
  lemma Apart(l: Limits, scale: u32, g: Segment, j: nat, k: nat, way: real)
    requires Profile(l, g, j) - Profile(l, g, k) == way
    ensures PositionOf(l, scale, g, j) - PositionOf(l, scale, g, k) == way * g.direction as real * scale as real
  {
    hide Profile;
    var p, q, d, s := Profile(l, g, j), Profile(l, g, k), g.direction as real, scale as real;
    assert p * d - q * d == way * d;
    assert (p * d + g.origin) * s - (q * d + g.origin) * s == (p * d - q * d) * s;
  }

  /** The first branch starts at the origin, and from point k on covers accel * (k + 1/2) to the next. */
  lemma Accelerating(l: Limits, scale: u32, g: Segment, k: nat)
    requires k < g.accelEnd
    ensures PositionOf(l, scale, g, 0) == g.origin * scale as real
    ensures k + 1 < g.accelEnd ==>
      PositionOf(l, scale, g, k + 1) - PositionOf(l, scale, g, k)
      == l.accel * (k as real + 0.5) * g.direction as real * scale as real
  {
    assert PositionOf(l, scale, g, 0) == g.origin * scale as real by {
      BeforePlateau(l, g);
      hide Profile;
    }
    if k + 1 < g.accelEnd {
      NextSquare(l.accel, k as real);
      assert Profile(l, g, k + 1) == 0.5 * l.accel * (k as real + 1.0) * (k as real + 1.0);
      Apart(l, scale, g, k + 1, k, l.accel * (k as real + 0.5));
    }
  }

  lemma NextSquare(a: real, x: real)
    ensures 0.5 * a * (x + 1.0) * (x + 1.0) - 0.5 * a * x * x == a * (x + 0.5)
    ensures 0.5 * a * ((x + 1.0) * (x + 1.0)) - 0.5 * a * (x * x) == a * (x + 0.5)
  {
  }

  /** The plateau starts at accelPos and covers the uniform speed from point to point. */
  lemma Cruising(l: Limits, scale: u32, g: Segment, k: nat)
    requires g.accelEnd <= k <= g.decelStart
    ensures PositionOf(l, scale, g, g.accelEnd) == (g.accelPos * g.direction as real + g.origin) * scale as real
    ensures k + 1 <= g.decelStart ==>
      PositionOf(l, scale, g, k + 1) - PositionOf(l, scale, g, k)
      == g.uniformSpeed * g.direction as real * scale as real
  {
    var x := k as real - g.accelEnd as real;
    OnPlateau(l, g, g.accelEnd);
    OnPlateau(l, g, k);
    if k + 1 <= g.decelStart {
      OnPlateau(l, g, k + 1);
      hide Profile;
      assert (k + 1) as real - g.accelEnd as real == x + 1.0;
      assert g.uniformSpeed * (x + 1.0) - g.uniformSpeed * x == g.uniformSpeed;
      Apart(l, scale, g, k + 1, k, g.uniformSpeed);
    }
  }

  /** The last branch is half a deceleration past decelPos at its first point, and speeds up from there. */
  lemma Decelerating(l: Limits, scale: u32, g: Segment, k: nat)
    requires g.accelEnd <= g.decelStart < k
    ensures PositionOf(l, scale, g, g.decelStart + 1)
         == ((g.decelPos + 0.5 * l.decel) * g.direction as real + g.origin) * scale as real
    ensures PositionOf(l, scale, g, k + 1) - PositionOf(l, scale, g, k)
         == l.decel * ((k - g.decelStart) as real + 0.5) * g.direction as real * scale as real
  {
    hide PositionOf;
    DecelerationStarts(l, scale, g);
    DecelerationStep(l, scale, g, k);
  }

  lemma DecelerationStarts(l: Limits, scale: u32, g: Segment)
    requires g.accelEnd <= g.decelStart
    ensures PositionOf(l, scale, g, g.decelStart + 1)
         == ((g.decelPos + 0.5 * l.decel) * g.direction as real + g.origin) * scale as real
  {
    var m := g.decelStart as real;
    InDeceleration(l, g, g.decelStart + 1, m + 1.0, m);
    hide Profile;
    assert Profile(l, g, g.decelStart + 1) == g.decelPos + 0.5 * l.decel;
  }

  lemma DecelerationStep(l: Limits, scale: u32, g: Segment, k: nat)
    requires g.accelEnd <= g.decelStart < k
    ensures PositionOf(l, scale, g, k + 1) - PositionOf(l, scale, g, k)
         == l.decel * ((k - g.decelStart) as real + 0.5) * g.direction as real * scale as real
  {
    var m := g.decelStart as real;
    var x := (k - g.decelStart) as real;
    InDeceleration(l, g, k, k as real, m);
    InDeceleration(l, g, k + 1, k as real + 1.0, m);
    hide Profile, PositionOf;
    assert k as real - m == x && k as real + 1.0 - m == x + 1.0;
    NextSquare(l.decel, x);
    Apart(l, scale, g, k + 1, k, l.decel * (x + 0.5));
  }

  /** A planned segment that ends where it starts stays there, for all its points. */
  lemma Resting(l: Limits, scale: u32, g: Segment, t: real, k: nat)
    requires l.Positive() && Planned(l, g, t) && g.target == g.origin && k <= g.pointsNum
    ensures PositionOf(l, scale, g, k) == g.origin * scale as real
  {
    NoMove(l, g, t);
    OnPlateau(l, g, k);
    hide Profile, Planned;
    assert Profile(l, g, k) == 0.0;
  }

  /** Fits an int64_t after truncation. */
  predicate Representable(x: real) {
    -0x8000_0000_0000_0000 as real < x < 0x8000_0000_0000_0000 as real
  }

  ghost predicate AllRepresentable(l: Limits, scale: u32, tp: seq<Segment>) {
    forall i, k :: 0 <= i < |tp| && 0 <= k < Calls(tp[i].pointsNum) ==> Representable(PositionOf(l, scale, tp[i], k))
  }

  /** The position that belongs to the n-th call from c on. */
  function PositionSent(l: Limits, scale: u32, tp: seq<Segment>, points: seq<nat>, cyclic: bool, c: Cursor, n: nat): int
    requires |points| <= |tp| && InWalk(points, c) && (cyclic ==> |points| >= 2)
  {
    var d := Steps(points, cyclic, c, n);
    ToInt32(PositionOf(l, scale, tp[d.seg], d.point))
  }

  /** How near to its target a segment's profile ends, before scaling. */
  function EndBound(l: Limits, g: Segment): real {
    g.uniformSpeed / 2.0 + l.decel / 8.0
  }

  /** A planned segment ends near its target and starts near its origin. */
  lemma PositionsNear(l: Limits, scale: u32, g: Segment, t: real)
    requires l.Positive() && Planned(l, g, t)
    ensures Within(PositionOf(l, scale, g, g.pointsNum), Units(g.target, scale), Units(EndBound(l, g), scale))
    ensures Within(PositionOf(l, scale, g, 0), Units(g.origin, scale), Units(l.accel / 8.0, scale))
  {
    hide Planned, Profile, Abs, Units;
    RoundedEnd(l, g, t);
    RoundedStart(l, g, t);
    PlannedDirection(l, g, t);
    Placed(Profile(l, g, g.pointsNum), Abs(g.target - g.origin), g.direction, g.origin, scale, EndBound(l, g));
    Placed(Profile(l, g, 0), 0.0, g.direction, g.origin, scale, l.accel / 8.0);
  }

  lemma PlannedDirection(l: Limits, g: Segment, t: real)
    requires l.Positive() && Planned(l, g, t)
    ensures (g.direction == 1 || g.direction == -1)
    ensures Abs(g.target - g.origin) * g.direction as real + g.origin == g.target
    ensures 0.0 * g.direction as real + g.origin == g.origin
  {
  }

  /** Turning, moving and scaling two values keeps them as near as the scale says. */
  lemma Placed(x: real, y: real, d: int, origin: real, scale: u32, bound: real)
    requires Within(x, y, bound) && (d == 1 || d == -1)
    ensures Within(Units(x * d as real + origin, scale), Units(y * d as real + origin, scale), Units(bound, scale))
  {
    ScaledWithin(x * d as real + origin, y * d as real + origin, scale, bound);
  }

  lemma ScaledWithin(a: real, b: real, scale: u32, bound: real)
    requires Within(a, b, bound)
    ensures Within(Units(a, scale), Units(b, scale), Units(bound, scale))
  {
    Times(a, b, scale as real, bound);
    Times(b, a, scale as real, bound);
  }

  lemma Times(a: real, b: real, s: real, bound: real)
    requires a - b <= bound && s >= 0.0
    ensures a * s - b * s <= bound * s
  {
    Product(bound - (a - b), s);
    assert (bound - (a - b)) * s == bound * s - (a * s - b * s);
  }

  /**
   From the text to the positions: the move of every feasible entry ends within v/2 + decel/8 of the entry's
   position, in the axis' own unit, and if the next is feasible as well it starts within accel/8 more of there.
   */
  lemma ParsedMoveEnds(l: Limits, scale: u32, tp: seq<Segment>, tp0: seq<Segment>, es: seq<(int, int)>, bias: real,
                       periodNs: u32, i: nat)
    requires l.Positive() && periodNs > 0 && Follows(tp, es, bias, periodNs) && AllSettled(l, tp, tp0, |es|)
    requires i < |es| && EntryFeasible(l, es, i, periodNs)
    ensures |es| <= |tp|
    ensures var end, bound := PositionOf(l, scale, tp[i], tp[i].pointsNum), tp[i].uniformSpeed / 2.0 + l.decel / 8.0;
            && Within(end, (bias + es[i].0 as real) * scale as real, bound * scale as real)
            && (i + 1 < |es| && EntryFeasible(l, es, i + 1, periodNs) ==>
                  Within(end, PositionOf(l, scale, tp[i + 1], 0), (bound + l.accel / 8.0) * scale as real))
  {
    hide PositionOf, EntryFeasible, AllSettled, Follows;
    ParsedMoveNear(l, scale, tp, tp0, es, bias, periodNs, i);
    if i + 1 < |es| && EntryFeasible(l, es, i + 1, periodNs) {
      ParsedMovesMeet(l, scale, tp, tp0, es, bias, periodNs, i);
    }
  }

  lemma ParsedMovesMeet(l: Limits, scale: u32, tp: seq<Segment>, tp0: seq<Segment>, es: seq<(int, int)>, bias: real,
                        periodNs: u32, i: nat)
    requires l.Positive() && periodNs > 0 && Follows(tp, es, bias, periodNs) && AllSettled(l, tp, tp0, |es|)
    requires i + 1 < |es| && EntryFeasible(l, es, i, periodNs) && EntryFeasible(l, es, i + 1, periodNs)
    ensures |es| <= |tp|
    ensures Within(PositionOf(l, scale, tp[i], tp[i].pointsNum), PositionOf(l, scale, tp[i + 1], 0),
                   Units(EndBound(l, tp[i]) + l.accel / 8.0, scale))
  {
    hide PositionOf, EntryFeasible, AllSettled, Follows, Units, EndBound;
    ParsedMoveNear(l, scale, tp, tp0, es, bias, periodNs, i);
    ParsedMoveNear(l, scale, tp, tp0, es, bias, periodNs, i + 1);
    AddUnits(EndBound(l, tp[i]), l.accel / 8.0, scale);
  }

  lemma ParsedMoveNear(l: Limits, scale: u32, tp: seq<Segment>, tp0: seq<Segment>, es: seq<(int, int)>, bias: real,
                       periodNs: u32, i: nat)
    requires l.Positive() && periodNs > 0 && Follows(tp, es, bias, periodNs) && AllSettled(l, tp, tp0, |es|)
    requires i < |es| && EntryFeasible(l, es, i, periodNs)
    ensures |es| <= |tp| && tp[i].target == bias + es[i].0 as real
    ensures i + 1 < |es| ==> tp[i + 1].origin == tp[i].target
    ensures Within(PositionOf(l, scale, tp[i], tp[i].pointsNum), Units(tp[i].target, scale), Units(EndBound(l, tp[i]), scale))
    ensures Within(PositionOf(l, scale, tp[i], 0), Units(tp[i].origin, scale), Units(l.accel / 8.0, scale))
  {
    hide PositionOf, Planned, EntryFeasible, AllSettled, Follows, Units, EndBound;
    PlannedByEntry(l, tp, tp0, es, bias, periodNs, i);
    MoveOfEntry(tp, es, bias, periodNs, i);
    var t :| Planned(l, tp[i], t);
    PositionsNear(l, scale, tp[i], t);
  }

  lemma AddUnits(x: real, y: real, scale: u32)
    ensures Units(x + y, scale) == Units(x, scale) + Units(y, scale)
  {
  }

  lemma NoSteps(points: seq<nat>, cyclic: bool, c: Cursor)
    requires InWalk(points, c) && (cyclic ==> |points| >= 2)
    ensures Steps(points, cyclic, c, 0) == c && At(points, c) < Offset(points, |points|)
  {
    OffsetGrows(points, c.seg, |points|);
  }

  lemma MovesUnchanged(tp: seq<Segment>)
    ensures SameMoves(tp, tp)
  {
  }

  lemma PositionKept(l: Limits, scale: u32, g: Segment, g0: Segment, k: nat)
    requires g == g0.(currentPoint := g.currentPoint)
    ensures PositionOf(l, scale, g, k) == PositionOf(l, scale, g0, k)
  {
  }

  lemma StartsAtZero(points: seq<nat>)
    requires points != []
    ensures InWalk(points, Cursor(0, 0, Running)) && At(points, Cursor(0, 0, Running)) == 0
    ensures 0 < Offset(points, |points|)
  {
    assert Offset(points, 0) == 0;
    OffsetGrows(points, 0, |points|);
  }

  /** The list is the same but for where its walk is. */
  ghost predicate SameMoves(tp: seq<Segment>, tp0: seq<Segment>) {
    |tp| == |tp0| && forall i :: 0 <= i < |tp| ==> tp[i] == tp0[i].(currentPoint := tp[i].currentPoint)
  }

  class Axis {
    const tp: array<Segment>
    var limits: Limits
    var scale: u32
    var isCyclic: bool
    var tpNum: nat
    var currentTp: nat
    var status: Status

    constructor (limits: Limits, blank: Segment, scale: u32)
      ensures tp.Length == 9 && fresh(tp) && this.limits == limits && status == Stop && currentTp == 0
    {
      tp := new Segment[MAX_SEGMENTS](_ => blank);
      this.limits, this.scale := limits, scale;
      isCyclic, tpNum, currentTp, status := false, 0, 0, Stop;
    }

    /** There are segments, a cyclic list has at least two, and only the current one is under way. */
    ghost predicate Valid()
      reads `tpNum, `currentTp, `isCyclic, tp
    {
      && tp.Length == MAX_SEGMENTS && currentTp < tpNum <= MAX_SEGMENTS && (isCyclic ==> tpNum >= 2)
      && tp[currentTp].currentPoint < Calls(tp[currentTp].pointsNum)
      && forall i :: 0 <= i < tpNum && i != currentTp ==> tp[i].currentPoint == 0
    }

    ghost function Points(): (p: seq<nat>)
      requires tpNum <= tp.Length
      reads `tpNum, tp
      ensures |p| == tpNum && forall i :: 0 <= i < tpNum ==> p[i] == tp[i].pointsNum
    {
      PointsOf(tp[..tpNum])
    }

    ghost function Where(): (c: Cursor)
      requires Valid()
      reads `tpNum, `currentTp, `isCyclic, `status, tp
      ensures InWalk(Points(), c)
    {
      Cursor(currentTp, tp[currentTp].currentPoint, status)
    }

    /** The position of the current point in the axis' own unit. */
    function Position(): real
      requires currentTp < tp.Length
      reads `limits, `currentTp, `scale, tp
    {
      PositionOf(limits, scale, tp[currentTp], tp[currentTp].currentPoint)
    }

    /** axis_nc_get_next_pos. */
    method GetNextPos() returns (pos: int)
      requires Valid()
      requires Representable(Position())
      modifies `currentTp, `status, tp
      ensures Valid() && pos == ToInt32(old(Position()))
      ensures IsPosition(pos, limits, scale, old(tp[currentTp]), old(tp[currentTp].currentPoint))
      ensures Points() == old(Points()) && Where() == Step(Points(), isCyclic, old(Where()))
      ensures SameMoves(tp[..], old(tp[..]))
    {
      hide ToInt32, PositionOf, SameMoves, PointsOf, IsPosition;
      pos := CurrentPos();
      var g := tp[currentTp];
      if g.currentPoint + 1 < g.pointsNum {
        SetPoint(g.currentPoint + 1);
        return;
      }
      SetPoint(0);
      currentTp := currentTp + 1;
      if currentTp < tpNum {
        return;
      }
      if isCyclic && status != PreStop {
        currentTp := 1;
      } else {
        status := Stop;
        currentTp := 0;
      }
    }

    /** The value of the current point. */
    method CurrentPos() returns (pos: int)
      requires currentTp < tp.Length && Representable(Position())
      ensures pos == ToInt32(Position())
      ensures IsPosition(pos, limits, scale, tp[currentTp], tp[currentTp].currentPoint)
    {
      PositionIs(limits, scale, tp[currentTp], tp[currentTp].currentPoint);
      pos := ToInt32(Position());
    }

    /** Assigns the current segment's point. */
    method SetPoint(k: u32)
      requires currentTp < tpNum <= tp.Length
      modifies tp
      ensures tp[currentTp] == old(tp[currentTp]).(currentPoint := k)
      ensures forall i :: 0 <= i < tp.Length && i != currentTp ==> tp[i] == old(tp[i])
      ensures Points() == old(Points()) && SameMoves(tp[..], old(tp[..]))
    {
      tp[currentTp] := tp[currentTp].(currentPoint := k);
    }

    /** axis_nc_start. */
    method Start()
      modifies `status
      ensures status == Running
    {
      status := Running;
    }

    /** axis_nc_stop: asks for the end of the lap. */
    method RequestStop()
      modifies `status
      ensures status == PreStop
    {
      status := PreStop;
    }

    /** One cycle of the application's loop, n cycles after the cursor was at c. */
    method NextSent(ghost tp0: seq<Segment>, ghost points: seq<nat>, ghost c: Cursor, ghost n: nat) returns (pos: int)
      requires Valid() && Points() == points && SameMoves(tp[..], tp0) && InWalk(points, c)
      requires Where() == Steps(points, isCyclic, c, n)
      requires AllRepresentable(limits, scale, tp0[..|points|])
      modifies `currentTp, `status, tp
      ensures Valid() && Points() == points && SameMoves(tp[..], tp0)
      ensures Where() == Steps(points, isCyclic, c, n + 1)
      ensures pos == PositionSent(limits, scale, tp0, points, isCyclic, c, n)
    {
      hide ToInt32, PositionOf, Step, Representable;
      PositionKept(limits, scale, tp[currentTp], tp0[currentTp], tp[currentTp].currentPoint);
      assert tp0[..|points|][currentTp] == tp0[currentTp];
      pos := GetNextPos();
    }

    /**
     The application's loop for one axis that does not go around or has been asked to stop: it sends one position a
     cycle for every point left, segment by segment in order, and then the axis has stopped at the start of its list.
     */
    method RunOut() returns (sent: seq<int>)
      requires Valid() && (status == Running || status == PreStop) && (isCyclic ==> status == PreStop)
      requires AllRepresentable(limits, scale, tp[..tpNum])
      modifies `currentTp, `status, tp
      ensures Valid() && Points() == old(Points()) && Where() == Cursor(0, 0, Stop)
      ensures |sent| == Offset(Points(), tpNum) - At(Points(), old(Where())) && SameMoves(tp[..], old(tp[..]))
      ensures forall k :: 0 <= k < |sent| ==>
        sent[k] == PositionSent(limits, scale, old(tp[..]), Points(), isCyclic, old(Where()), k)
    {
      hide AllRepresentable, PositionSent, Steps, SameMoves, Offset, At, Calls;
      ghost var points, tp0, start := Points(), tp[..], Where();
      sent := [];
      NoSteps(points, isCyclic, start);
      MovesUnchanged(tp0);
      while status == Running || status == PreStop
        invariant Valid() && Points() == points && SameMoves(tp[..], tp0)
        invariant |sent| <= Offset(points, |points|) - At(points, start)
        invariant Where() == Steps(points, isCyclic, start, |sent|)
        invariant forall k :: 0 <= k < |sent| ==> sent[k] == PositionSent(limits, scale, tp0, points, isCyclic, start, k)
        decreases Offset(points, |points|) - |sent|
      {
        RunStops(points, isCyclic, start, |sent|);
        var pos := NextSent(tp0, points, start, |sent|);
        sent := sent + [pos];
      }
      RunStops(points, isCyclic, start, |sent|);
    }

    /** A running axis that is told to stop sends what is left of the lap it is in, and no more. */
    method StopLap() returns (sent: seq<int>)
      requires Valid() && status == Running
      requires AllRepresentable(limits, scale, tp[..tpNum])
      modifies `currentTp, `status, tp
      ensures Valid() && Points() == old(Points()) && Where() == Cursor(0, 0, Stop)
      ensures |sent| == Offset(Points(), tpNum) - At(Points(), old(Where())) && SameMoves(tp[..], old(tp[..]))
      ensures forall k :: 0 <= k < |sent| ==>
        sent[k] == PositionSent(limits, scale, old(tp[..]), Points(), isCyclic, old(Where()).(status := PreStop), k)
    {
      hide AllRepresentable, PositionSent, SameMoves, Offset, Calls;
      RequestStop();
      sent := RunOut();
    }

    /** What the parser sets in one segment before and by planning it. */
    method SetSegment(i: nat, points: u32, origin: real, target: real, sqrt: real -> real)
      requires i < tp.Length && limits.Positive() && IsSqrt(sqrt)
      modifies tp
      ensures tp[i].pointsNum == points && tp[i].currentPoint == 0 && tp[i].origin == origin && tp[i].target == target
      ensures Settled(limits, tp[i], old(tp[i]))
      ensures forall j :: 0 <= j < tp.Length && j != i ==> tp[j] == old(tp[j])
    {
      var g := tp[i].(pointsNum := points, currentPoint := 0, origin := origin, target := target);
      var r, planned, t := Plan(limits, g, sqrt);
      tp[i] := planned;
      PlannedHasDirection(limits, planned);
      hide Planned, Feasible, Direction;
    }

    /**
     The part of Tp_arrays_parser behind the keywords: text is what follows the bracket, or there was none.
     The first loop counts, the second builds; the result of planning is ignored.
     */
    method ParseSegments(text: Option<string>, bias: real, periodNs: u32, sqrt: real -> real) returns (r: int)
      requires tp.Length == MAX_SEGMENTS && limits.Positive() && IsSqrt(sqrt) && periodNs > 0
      modifies `tpNum, `status, tp
      ensures var n := if text == None then 0 else Parens(text.value);
              && (r == -3 <==> n == 0) && (r == -4 <==> n >= 9)
              && (r == 0 <==> 0 < n < 9 && Parses(text.value, isCyclic))
              && (r == -5 <==> 0 < n < 9 && !Parses(text.value, isCyclic))
              && (n == 0 || n >= 9 ==> tp[..] == old(tp[..]) && tpNum == old(tpNum))
              && (0 < n < 9 ==> tpNum == n + if isCyclic then 1 else 0)
              && forall j :: n + (if isCyclic then 1 else 0) <= j < tp.Length ==> tp[j] == old(tp[j])
      ensures r == 0 ==>
        var all := WithReturn(Entries(text.value).value, isCyclic);
        && status == Ready && Follows(tp[..], all, bias, periodNs) && AllLast(tp[..], all, periodNs)
        && AllSettled(limits, tp[..], old(tp[..]), |all|)
      ensures r != 0 ==> status == old(status)
      ensures r == 0 ==>
        (tpNum == |WithReturn(Entries(text.value).value, isCyclic)| <==> Parens(text.value) == |Entries(text.value).value|)
      ensures r == 0 && Parens(text.value) == |Entries(text.value).value| && currentTp == 0 ==>
        Valid() && Where() == Cursor(0, 0, Ready)
        && Points() == PointsOfEntries(WithReturn(Entries(text.value).value, isCyclic), periodNs)
    {
      hide Parens, Entries, ScanPair, Follows, PointsFor, Settled, AllSettled, AllLast;
      if text == None {
        return -3;
      }
      var n := CountParens(text.value);
      if n == 0 {
        return -3;
      }
      if n >= MAX_SEGMENTS {
        return -4;
      }
      tpNum := if isCyclic then n + 1 else n;
      var ok, i := BuildSegments(text.value, bias, periodNs, sqrt);
      if !ok {
        return -5;
      }
      EntriesFit(text.value);
      if isCyclic {
        var closed := CloseCycle(text.value, i, bias, periodNs, sqrt, old(tp[..]));
        if !closed {
          return -5;
        }
      }
      status := Ready;
      r := 0;
      ghost var all := WithReturn(Entries(text.value).value, isCyclic);
      FollowsLast(tp[..], all, bias, periodNs);
      if tpNum == |all| && currentTp == 0 {
        FollowsFresh(tp[..], all, bias, periodNs);
        assert Points() == PointsOfEntries(all, periodNs);
      }
    }

    /** The segment back to the first entry. */
    method CloseCycle(text: string, i: nat, bias: real, periodNs: u32, sqrt: real -> real, ghost tp0: seq<Segment>)
      returns (closed: bool)
      requires limits.Positive() && IsSqrt(sqrt) && periodNs > 0
      requires Entries(text).Some? && 0 < i == |Entries(text).value| < tp.Length
      requires Follows(tp[..], Entries(text).value, bias, periodNs) && AllSettled(limits, tp[..], tp0, i)
      requires tp0[i] == tp[i]
      modifies tp
      ensures closed == ScanPair(text).Some?
      ensures closed ==>
        var es := Entries(text).value;
        Follows(tp[..], es + [es[0]], bias, periodNs) && AllSettled(limits, tp[..], tp0, i + 1)
      ensures forall j :: 0 <= j < tp.Length && j != i ==> tp[j] == old(tp[j])
    {
      hide Entries, ScanPair, Follows, PointsFor, Settled, AllSettled;
      FirstEntry(text);
      match ScanPair(text) {
        case None => return false;
        case Some(e) =>
          ghost var before, es := tp[..], Entries(text).value;
          var origin := tp[i - 1].target;
          LastTarget(before, es, bias, periodNs);
          SetSegment(i, PointsFor(e.1, periodNs), origin, bias + e.0 as real, sqrt);
          FollowsNext(before, tp[..], es, e, bias, periodNs);
          SettledNext(limits, before, tp[..], tp0, i);
          return true;
      }
    }

    /** The second loop. */
    method BuildSegments(text: string, bias: real, periodNs: u32, sqrt: real -> real) returns (ok: bool, i: nat)
      requires tp.Length == MAX_SEGMENTS && limits.Positive() && IsSqrt(sqrt) && periodNs > 0
      requires Parens(text) < MAX_SEGMENTS
      modifies tp
      ensures ok == Entries(text).Some?
      ensures ok ==> i == |Entries(text).value| && Follows(tp[..], Entries(text).value, bias, periodNs)
      ensures ok ==> AllSettled(limits, tp[..], old(tp[..]), i) && forall j :: i <= j < tp.Length ==> tp[j] == old(tp[j])
      ensures forall j :: Parens(text) <= j < tp.Length ==> tp[j] == old(tp[j])
    {
      hide Parens, Entries, StrChr, SkipBlank, ScanPair, Read, PointsFor, Settled, AllSettled;
      NoneSettled(limits, tp[..]);
      var p, origin := text, bias;
      ghost var es: seq<(int, int)> := [];
      i := 0;
      assert Read(text, [], text) by { ReadNothing(text); }
      while true
        invariant |es| == i && i + Parens(p) <= Parens(text) && Read(text, es, p)
        invariant Follows(tp[..], es, bias, periodNs) && origin == OriginOf(es, i, bias)
        invariant AllSettled(limits, tp[..], old(tp[..]), i)
        invariant forall j :: i <= j < tp.Length ==> tp[j] == old(tp[j])
        decreases |p|
      {
        ReadNext(text, es, p);
        p := SkipBlank(p);
        match ScanPair(p) {
          case None => return false, i;
          case Some(e) =>
            var nextPos := bias + e.0 as real;
            ghost var before := tp[..];
            SetSegment(i, PointsFor(e.1, periodNs), origin, nextPos, sqrt);
            FollowsNext(before, tp[..], es, e, bias, periodNs);
            SettledNext(limits, before, tp[..], old(tp[..]), i);
            i, origin, es := i + 1, nextPos, es + [e];
            p := SkipBlank(p);
            match StrChr(p, ',') {
              case None => return true, i;
              case Some(q) => p := q[1..];
            }
        }
      }
    }

    static method CountParens(text: string) returns (n: nat)
      ensures n == Parens(text)
    {
      n := 0;
      var p := text;
      while true
        invariant n + Parens(p) == Parens(text)
        decreases |p|
      {
        ParensOfStrChr(p, '(');
        match StrChr(p, '(') {
          case None => return;
          case Some(q) =>
            n := n + 1;
            p := q[1..];
        }
      }
    }
  }

  function PointsOf(tp: seq<Segment>): (p: seq<nat>)
    ensures |p| == |tp| && forall i :: 0 <= i < |tp| ==> p[i] == tp[i].pointsNum
  {
    seq(|tp|, i requires 0 <= i < |tp| => tp[i].pointsNum)
  }
}
