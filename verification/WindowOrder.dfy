/** The number-aware order of a loader's windows. A char stands for one byte of the name. */
module WindowOrder {
  import opened Decimals

  // ---- names as tokens ----

  /** A maximal run of digits is its number; every other byte is itself. */
  datatype Token = Num(value: nat) | Sym(byte: char)

  function RunEnd(s: string, i: nat): (e: nat)
    requires i <= |s|
    ensures i <= e <= |s|
    ensures forall k | i <= k < e :: IsDigit(s[k])
    ensures e < |s| ==> !IsDigit(s[e])
    decreases |s| - i
  {
    if i < |s| && IsDigit(s[i]) then RunEnd(s, i + 1) else i
  }

  function TokensFrom(s: string, i: nat): seq<Token>
    requires i <= |s|
    decreases |s| - i
  {
    if i == |s| then []
    else if IsDigit(s[i]) then [Num(Value(s[i..RunEnd(s, i)]))] + TokensFrom(s, RunEnd(s, i))
    else [Sym(s[i])] + TokensFrom(s, i + 1)
  }

  function Tokens(s: string): seq<Token> {
    TokensFrom(s, 0)
  }

  /** Bytes below the digits come before every number, the other bytes after. */
  predicate TokenLess(x: Token, y: Token) {
    match (x, y)
    case (Num(m), Num(n)) => m < n
    case (Sym(b), Sym(c)) => b < c
    case (Sym(b), Num(_)) => b < '0'
    case (Num(_), Sym(c)) => c >= '0'
  }

  /** Dictionary order. */
  predicate LexLess(xs: seq<Token>, ys: seq<Token>) {
    if xs == [] || ys == [] then xs == [] && ys != []
    else if xs[0] == ys[0] then LexLess(xs[1..], ys[1..])
    else TokenLess(xs[0], ys[0])
  }

  // ---- digit runs compare as numbers ----

  function Pow10(n: nat): (p: nat)
    ensures p >= 1
  {
    if n == 0 then 1 else 10 * Pow10(n - 1)
  }

  lemma {:induction false} ValueBound(s: string)
    requires AllDigits(s)
    ensures Value(s) < Pow10(|s|)
    ensures s != [] && s[0] != '0' ==> Value(s) >= Pow10(|s| - 1)
  {
    if s != [] {
      var front := s[..|s| - 1];
      ValueBound(front);
      if |s| == 1 {
        assert DigitValue(s[0]) >= 1 || s[0] == '0';
      }
    }
  }

  lemma {:induction false} Pow10Grows(m: nat, n: nat)
    requires m <= n
    ensures Pow10(m) <= Pow10(n)
  {
    if m < n {
      Pow10Grows(m, n - 1);
    }
  }

  /** Text order of byte strings. */
  predicate TextLess(a: string, b: string) {
    if a == [] || b == [] then a == [] && b != []
    else if a[0] == b[0] then TextLess(a[1..], b[1..])
    else a[0] < b[0]
  }

  lemma {:induction false} TextLessSnoc(a: string, b: string, x: char, y: char)
    requires |a| == |b|
    ensures TextLess(a + [x], b + [y]) <==> TextLess(a, b) || (a == b && x < y)
  {
    if a != [] {
      TextLessSnoc(a[1..], b[1..], x, y);
      assert (a + [x])[1..] == a[1..] + [x];
      assert (b + [y])[1..] == b[1..] + [y];
      if a[0] == b[0] {
        assert a == [a[0]] + a[1..] && b == [b[0]] + b[1..];
      }
    }
  }

  lemma {:induction false} TextIsNumeric(a: string, b: string)
    requires AllDigits(a) && AllDigits(b) && |a| == |b|
    ensures TextLess(a, b) <==> Value(a) < Value(b)
    ensures Value(a) == Value(b) ==> a == b
  {
    if a != [] {
      var n := |a| - 1;
      TextIsNumeric(a[..n], b[..n]);
      TextLessSnoc(a[..n], b[..n], a[n], b[n]);
      assert a == a[..n] + [a[n]] && b == b[..n] + [b[n]];
    }
  }

  predicate NoLeadingZero(s: string) {
    s == [] || s[0] != '0'
  }

  /** Shorter first, then as text: for stripped runs that is the order of their numbers. */
  lemma StrippedIsNumeric(a: string, b: string)
    requires AllDigits(a) && AllDigits(b) && NoLeadingZero(a) && NoLeadingZero(b)
    ensures |a| < |b| ==> Value(a) < Value(b)
    ensures |a| == |b| ==> (TextLess(a, b) <==> Value(a) < Value(b)) && (a == b <==> Value(a) == Value(b))
  {
    ValueBound(a);
    ValueBound(b);
    if |a| < |b| {
      Pow10Grows(|a|, |b| - 1);
    } else if |a| == |b| {
      TextIsNumeric(a, b);
    }
  }

  lemma {:induction false} LeadingZero(s: string)
    requires AllDigits(s) && s != [] && s[0] == '0'
    ensures Value(s[1..]) == Value(s)
  {
    var n := |s| - 1;
    if n == 0 {
      assert s[..0] == [] && s[1..] == [];
    } else {
      LeadingZero(s[..n]);
      assert s[1..][..n - 1] == s[..n][1..];
    }
  }

  // ---- the comparison loop ----

  method SkipDigits(s: string, from: nat) returns (i: nat)
    requires from <= |s|
    ensures i == RunEnd(s, from)
  {
    i := from;
    while i < |s| && IsDigit(s[i])
      invariant from <= i <= |s| && RunEnd(s, from) == RunEnd(s, i)
    {
      i := i + 1;
    }
  }

  method TrimZeros(s: string) returns (t: string)
    requires AllDigits(s)
    ensures AllDigits(t) && NoLeadingZero(t) && Value(t) == Value(s)
  {
    t := s;
    while t != [] && t[0] == '0'
      invariant AllDigits(t) && Value(t) == Value(s)
      decreases |t|
    {
      LeadingZero(t);
      t := t[1..];
    }
  }

  /** The loop decides dictionary order on tokens. */
  method LessName(a: string, b: string) returns (less: bool)
    ensures less <==> LexLess(Tokens(a), Tokens(b))
  {
    var i, j := 0, 0;
    while i < |a| && j < |b|
      invariant i <= |a| && j <= |b|
      invariant LexLess(Tokens(a), Tokens(b)) <==> LexLess(TokensFrom(a, i), TokensFrom(b, j))
      decreases |a| - i
    {
      var ad, bd := IsDigit(a[i]), IsDigit(b[j]);
      if ad != bd {
        return a[i] < b[j];
      }
      if !ad {
        if a[i] != b[j] {
          return a[i] < b[j];
        }
        SameHead(TokensFrom(a, i), TokensFrom(b, j), TokensFrom(a, i + 1), TokensFrom(b, j + 1));
        i, j := i + 1, j + 1;
        continue;
      }
      var i' := SkipDigits(a, i);
      var j' := SkipDigits(b, j);
      var aRun := TrimZeros(a[i..i']);
      var bRun := TrimZeros(b[j..j']);
      StrippedIsNumeric(aRun, bRun);
      StrippedIsNumeric(bRun, aRun);
      if |aRun| != |bRun| {
        return |aRun| < |bRun|;
      }
      if aRun != bRun {
        return TextLess(aRun, bRun);
      }
      SameHead(TokensFrom(a, i), TokensFrom(b, j), TokensFrom(a, i'), TokensFrom(b, j'));
      i, j := i', j';
    }
    return |a| - i < |b| - j;
  }

  lemma SameHead(xs: seq<Token>, ys: seq<Token>, xt: seq<Token>, yt: seq<Token>)
    requires xs != [] && ys != [] && xs[0] == ys[0] && xs[1..] == xt && ys[1..] == yt
    ensures LexLess(xs, ys) <==> LexLess(xt, yt)
  {
  }

  // ---- a strict order up to leading zeros ----

  lemma {:induction false} LexTotal(xs: seq<Token>, ys: seq<Token>)
    ensures !LexLess(xs, xs)
    ensures LexLess(xs, ys) || LexLess(ys, xs) || xs == ys
    ensures !(LexLess(xs, ys) && LexLess(ys, xs))
  {
    if xs != [] {
      LexTotal(xs[1..], if ys == [] then [] else ys[1..]);
      if ys != [] && xs[0] == ys[0] {
        assert xs == [xs[0]] + xs[1..] && ys == [ys[0]] + ys[1..];
      }
    }
  }

  lemma {:induction false} LexTransitive(xs: seq<Token>, ys: seq<Token>, zs: seq<Token>)
    requires LexLess(xs, ys) && LexLess(ys, zs)
    ensures LexLess(xs, zs)
  {
    if xs != [] && xs[0] == ys[0] == zs[0] {
      LexTransitive(xs[1..], ys[1..], zs[1..]);
    }
  }

  datatype Window = Window(ordinal: int, name: string)

  predicate Less(a: Window, b: Window) {
    if a.ordinal != b.ordinal then a.ordinal < b.ordinal else LexLess(Tokens(a.name), Tokens(b.name))
  }

  predicate Tie(a: Window, b: Window) {
    !Less(a, b) && !Less(b, a)
  }

  /** The name with every digit run written without leading zeros. */
  function Print(ts: seq<Token>): string {
    if ts == [] then []
    else (match ts[0] case Num(n) => Show(n) case Sym(c) => [c]) + Print(ts[1..])
  }

  function Unpadded(name: string): string {
    Print(Tokens(name))
  }

  lemma RunEndAfter(digits: string, rest: string, i: nat)
    requires AllDigits(digits) && i <= |digits| && (rest != [] ==> !IsDigit(rest[0]))
    ensures RunEnd(digits + rest, i) == |digits|
    decreases |digits| - i
  {
    if i < |digits| {
      RunEndAfter(digits, rest, i + 1);
    }
  }

  /** One token off the front. */
  lemma TokensUnfold(s: string, i: nat)
    requires i < |s|
    ensures RunEnd(s, i) > i <==> IsDigit(s[i])
    ensures TokensFrom(s, i) ==
      if IsDigit(s[i]) then [Num(Value(s[i..RunEnd(s, i)]))] + TokensFrom(s, RunEnd(s, i))
      else [Sym(s[i])] + TokensFrom(s, i + 1)
  {
  }

  lemma SliceShift(front: string, s: string, i: nat, e: nat)
    requires i <= e <= |s|
    ensures (front + s)[|front| + i..|front| + e] == s[i..e]
  {
  }

  lemma {:induction false} TokensFromShift(front: string, s: string, i: nat)
    requires i <= |s|
    ensures TokensFrom(front + s, |front| + i) == TokensFrom(s, i)
    decreases |s| - i
  {
    if i < |s| {
      hide *;
      var whole, k := front + s, |front| + i;
      assert whole[k] == s[i];
      TokensUnfold(whole, k);
      TokensUnfold(s, i);
      if IsDigit(s[i]) {
        var e := RunEnd(s, i);
        RunEndShift(front, s, i);
        TokensFromShift(front, s, e);
        SliceShift(front, s, i, e);
      } else {
        TokensFromShift(front, s, i + 1);
        assert k + 1 == |front| + (i + 1);
      }
    }
  }

  lemma {:induction false} RunEndShift(front: string, s: string, i: nat)
    requires i <= |s|
    ensures RunEnd(front + s, |front| + i) == |front| + RunEnd(s, i)
    decreases |s| - i
  {
    if i < |s| {
      assert (front + s)[|front| + i] == s[i];
      if IsDigit(s[i]) {
        RunEndShift(front, s, i + 1);
      }
    }
  }

  /** Token lists that come from names: symbols are not digits and no two numbers touch. */
  ghost predicate FromName(ts: seq<Token>) {
    && (forall i | 0 <= i < |ts| && ts[i].Sym? :: !IsDigit(ts[i].byte))
    && (forall i | 0 <= i < |ts| - 1 :: !(ts[i].Num? && ts[i + 1].Num?))
  }

  lemma {:induction false} TokensComeFromName(s: string, i: nat)
    requires i <= |s|
    ensures FromName(TokensFrom(s, i))
    decreases |s| - i
  {
    if i < |s| {
      var ts := TokensFrom(s, i);
      var next := if IsDigit(s[i]) then RunEnd(s, i) else i + 1;
      TokensComeFromName(s, next);
      var rest := TokensFrom(s, next);
      assert ts[1..] == rest;
      forall k | 0 <= k < |ts| - 1
        ensures !(ts[k].Num? && ts[k + 1].Num?)
      {
        if k > 0 {
          assert ts[k] == rest[k - 1] && ts[k + 1] == rest[k];
        }
      }
      forall k | 0 <= k < |ts| && ts[k].Sym?
        ensures !IsDigit(ts[k].byte)
      {
        if k > 0 {
          assert ts[k] == rest[k - 1];
        }
      }
    }
  }

  lemma PrintStart(ts: seq<Token>)
    requires FromName(ts) && ts != [] && ts[0].Sym?
    ensures Print(ts) != [] && !IsDigit(Print(ts)[0])
  {
  }

  /** Reading a printed token list gives it back. */
  lemma {:induction false} TokensOfPrint(ts: seq<Token>)
    requires FromName(ts)
    ensures Tokens(Print(ts)) == ts
  {
    if ts != [] {
      var rest := ts[1..];
      forall i | 0 <= i < |rest| - 1
        ensures !(rest[i].Num? && rest[i + 1].Num?)
      {
        assert rest[i] == ts[i + 1] && rest[i + 1] == ts[i + 2];
        assert !(ts[i + 1].Num? && ts[i + 1 + 1].Num?);
      }
      TokensOfPrint(rest);
      match ts[0]
      case Sym(c) =>
        TokensFromShift([c], Print(rest), 0);
      case Num(n) =>
        if rest != [] {
          assert rest[0] == ts[1] && !(ts[0].Num? && ts[0 + 1].Num?);
          PrintStart(rest);
        }
        RunEndAfter(Show(n), Print(rest), 0);
        assert (Show(n) + Print(rest))[0..|Show(n)|] == Show(n);
        ValueOfShow(n);
        TokensFromShift(Show(n), Print(rest), 0);
    }
  }

  /** Two windows tie exactly when they have the same ordinal and their names differ at most by leading
      zeros of digit runs. */
  lemma TieIff(a: Window, b: Window)
    ensures Tie(a, b) <==> a.ordinal == b.ordinal && Unpadded(a.name) == Unpadded(b.name)
  {
    LexTotal(Tokens(a.name), Tokens(b.name));
    TokensComeFromName(a.name, 0);
    TokensComeFromName(b.name, 0);
    TokensOfPrint(Tokens(a.name));
    TokensOfPrint(Tokens(b.name));
  }

  // ---- leading zeros on the names themselves ----

  /** A zero at `i` that stands in front of a digit and not behind one. */
  predicate PadAt(s: string, i: nat) {
    i + 1 < |s| && s[i] == '0' && IsDigit(s[i + 1]) && (i == 0 || !IsDigit(s[i - 1]))
  }

  function Cut(s: string, i: nat): string
    requires i < |s|
  {
    s[..i] + s[i + 1..]
  }

  /** `t` is `s` with zeros put in front of digit runs, one after the other. */
  ghost predicate PaddedTo(s: string, t: string)
    decreases |t|
  {
    s == t || exists i: nat | i < |t| :: PadAt(t, i) && PaddedTo(s, Cut(t, i))
  }

  lemma TokensAfter(front: string, s: string)
    ensures TokensFrom(front + s, |front|) == TokensFrom(s, 0)
  {
    TokensFromShift(front, s, 0);
  }

  /** Tokens up to a cut that does not split a digit run are not affected by what follows. */
  lemma {:induction false} SameTokensTo(a: string, x: string, y: string, i: nat)
    requires i <= |a| && (a == [] || !IsDigit(a[|a| - 1])) && TokensFrom(x, 0) == TokensFrom(y, 0)
    ensures TokensFrom(a + x, i) == TokensFrom(a + y, i)
    decreases |a| - i
  {
    if i == |a| {
      TokensAfter(a, x);
      TokensAfter(a, y);
    } else {
      hide TokensFrom, RunEnd, Value;
      TokensUnfold(a + x, i);
      TokensUnfold(a + y, i);
      TokensUnfold(a, i);
      assert (a + x)[i] == a[i] == (a + y)[i];
      if IsDigit(a[i]) {
        RunEndsInside(a, x, i);
        RunEndsInside(a, y, i);
        var e := RunEnd(a, i);
        SliceOfFront(a, x, i, e);
        SliceOfFront(a, y, i, e);
        SameTokensTo(a, x, y, e);
      } else {
        SameTokensTo(a, x, y, i + 1);
      }
    }
  }

  lemma SliceOfFront(a: string, x: string, i: nat, e: nat)
    requires i <= e <= |a|
    ensures (a + x)[i..e] == a[i..e]
  {
  }

  lemma {:induction false} RunEndsInside(a: string, x: string, i: nat)
    requires i < |a| && !IsDigit(a[|a| - 1])
    ensures RunEnd(a + x, i) == RunEnd(a, i) < |a|
    decreases |a| - i
  {
    assert (a + x)[i] == a[i];
    if IsDigit(a[i]) {
      RunEndsInside(a, x, i + 1);
    }
  }

  lemma ZeroInFront(s: string)
    requires s != [] && IsDigit(s[0])
    ensures TokensFrom("0" + s, 0) == TokensFrom(s, 0)
  {
    var t := "0" + s;
    RunEndShift("0", s, 0);
    var e := RunEnd(s, 0);
    TokensUnfold(t, 0);
    TokensUnfold(s, 0);
    assert RunEnd(t, 0) == 1 + e by {
      assert t[0] == '0';
    }
    assert t[0..1 + e] == "0" + s[0..e];
    LeadingZero(t[0..1 + e]);
    assert t[0..1 + e][1..] == s[0..e];
    TokensFromShift("0", s, e);
  }

  /** Taking out such a zero leaves the tokens alone. */
  lemma PadIsInvisible(s: string, i: nat)
    requires PadAt(s, i)
    ensures Tokens(Cut(s, i)) == Tokens(s)
  {
    var a, rest := s[..i], s[i + 1..];
    ZeroInFront(rest);
    SameTokensTo(a, "0" + rest, rest, 0);
    assert s == a + ("0" + rest);
  }

  // ---- which of two windows comes first ----

  /** A prefix that does not end in a digit is read for itself. */
  lemma {:induction false} TokensOfBoth(a: string, x: string, i: nat)
    requires i <= |a| && (a == [] || !IsDigit(a[|a| - 1]))
    ensures TokensFrom(a + x, i) == TokensFrom(a, i) + TokensFrom(x, 0)
    decreases |a| - i
  {
    if i == |a| {
      TokensAfter(a, x);
      assert TokensFrom(a, i) == [];
    } else {
      hide *;
      var next := NextToken(a, x, i);
      TokensOfBoth(a, x, next);
      Shifted(TokenAt(a, i), TokensFrom(a, next), TokensFrom(x, 0));
    }
  }

  lemma Shifted(t: Token, us: seq<Token>, xs: seq<Token>)
    ensures [t] + (us + xs) == [t] + us + xs
  {
  }

  function TokenAt(s: string, i: nat): Token
    requires i < |s|
  {
    if IsDigit(s[i]) then Num(Value(s[i..RunEnd(s, i)])) else Sym(s[i])
  }

  /** One token of the prefix off the front of both. */
  lemma NextToken(a: string, x: string, i: nat) returns (next: nat)
    requires i < |a| && !IsDigit(a[|a| - 1])
    ensures i < next <= |a|
    ensures TokensFrom(a, i) == [TokenAt(a, i)] + TokensFrom(a, next)
    ensures TokensFrom(a + x, i) == [TokenAt(a, i)] + TokensFrom(a + x, next)
  {
    TokensUnfold(a + x, i);
    TokensUnfold(a, i);
    assert (a + x)[i] == a[i];
    hide TokensFrom, RunEnd, Value;
    if IsDigit(a[i]) {
      next := RunEnd(a, i);
      RunEndsInside(a, x, i);
      SliceOfFront(a, x, i, next);
    } else {
      next := i + 1;
    }
  }

  lemma {:induction false} LexAfterCommon(us: seq<Token>, xs: seq<Token>, ys: seq<Token>)
    ensures LexLess(us + xs, us + ys) <==> LexLess(xs, ys)
  {
    if us == [] {
      assert us + xs == xs && us + ys == ys;
    } else {
      assert (us + xs)[1..] == us[1..] + xs && (us + ys)[1..] == us[1..] + ys;
      LexAfterCommon(us[1..], xs, ys);
    }
  }

  /** Behind a common part that does not end in a digit, the rest decides. */
  lemma RestDecides(ordinal: int, common: string, x: string, y: string)
    requires common == [] || !IsDigit(common[|common| - 1])
    ensures Less(Window(ordinal, common + x), Window(ordinal, common + y))
       <==> LexLess(TokensFrom(x, 0), TokensFrom(y, 0))
  {
    TokensOfBoth(common, x, 0);
    TokensOfBoth(common, y, 0);
    LexAfterCommon(TokensFrom(common, 0), TokensFrom(x, 0), TokensFrom(y, 0));
  }

  ghost predicate First(a: Window, b: Window) {
    Less(a, b) && !Less(b, a)
  }

  /** A smaller ordinal comes first, whatever the names. */
  lemma OrdinalFirst(a: Window, b: Window)
    requires a.ordinal < b.ordinal
    ensures First(a, b)
  {
  }

  /** At equal ordinals and behind a common part that does not end in a digit, the smaller of two numbers comes
      first, however they are padded and whatever follows them. */
  lemma NumberFirst(ordinal: int, common: string, m: string, x: string, n: string, y: string)
    requires common == [] || !IsDigit(common[|common| - 1])
    requires m != [] && n != [] && AllDigits(m) && AllDigits(n) && Value(m) < Value(n)
    requires (x == [] || !IsDigit(x[0])) && (y == [] || !IsDigit(y[0]))
    ensures First(Window(ordinal, common + (m + x)), Window(ordinal, common + (n + y)))
  {
    hide Less, LexLess, Value;
    RestDecides(ordinal, common, m + x, n + y);
    RestDecides(ordinal, common, n + y, m + x);
    NumberHead(m, x);
    NumberHead(n, y);
    HeadsDecide(TokensFrom(m + x, 0), TokensFrom(n + y, 0));
  }

  lemma NumberHead(m: string, x: string)
    requires m != [] && AllDigits(m) && (x == [] || !IsDigit(x[0]))
    ensures TokensFrom(m + x, 0) != [] && TokensFrom(m + x, 0)[0] == Num(Value(m))
  {
    assert (m + x)[0] == m[0];
    RunEndAfter(m, x, 0);
    assert (m + x)[0..|m|] == m;
  }

  lemma HeadsDecide(xs: seq<Token>, ys: seq<Token>)
    requires xs != [] && ys != [] && xs[0] != ys[0]
    ensures LexLess(xs, ys) <==> TokenLess(xs[0], ys[0])
    ensures LexLess(ys, xs) <==> TokenLess(ys[0], xs[0])
  {
  }

  /** The smaller of two other bytes comes first; a byte below the digits comes before every number and one above
      them after; and a name comes before its continuations. */
  lemma ByteFirst(ordinal: int, common: string, x: string, y: string)
    requires common == [] || !IsDigit(common[|common| - 1])
    ensures
      var a, b := Window(ordinal, common + x), Window(ordinal, common + y);
      && (x != [] && y != [] && !IsDigit(x[0]) && !IsDigit(y[0]) && x[0] < y[0] ==> First(a, b))
      && (x != [] && y != [] && x[0] < '0' && IsDigit(y[0]) ==> First(a, b))
      && (x != [] && y != [] && IsDigit(x[0]) && y[0] > '9' ==> First(a, b))
      && (x == [] && y != [] ==> First(a, b))
  {
    hide Less, Value;
    RestDecides(ordinal, common, x, y);
    RestDecides(ordinal, common, y, x);
    if y != [] {
      TokensUnfold(y, 0);
      if x != [] {
        TokensUnfold(x, 0);
        hide LexLess;
        if TokensFrom(x, 0)[0] != TokensFrom(y, 0)[0] {
          HeadsDecide(TokensFrom(x, 0), TokensFrom(y, 0));
        }
      }
    }
  }

  ghost predicate NoPads(s: string) {
    forall k: nat | k < |s| :: !PadAt(s, k)
  }

  lemma RunIsShown(s: string, i: nat)
    requires i < |s| && NoPads(s) && IsDigit(s[i]) && (i == 0 || !IsDigit(s[i - 1]))
    ensures RunEnd(s, i) > i && Show(Value(s[i..RunEnd(s, i)])) == s[i..RunEnd(s, i)]
  {
    var run := s[i..RunEnd(s, i)];
    assert !PadAt(s, i);
    assert run[0] == s[i] && (|run| > 1 ==> run[1] == s[i + 1]);
    hide Value, Show;
    ShowOfValue(run);
  }

  /** A name without such a zero is the way its tokens are written. */
  lemma {:induction false} UnpaddedPrints(s: string, i: nat)
    requires i <= |s| && NoPads(s) && (0 < i < |s| && IsDigit(s[i]) ==> !IsDigit(s[i - 1]))
    ensures Print(TokensFrom(s, i)) == s[i..]
    decreases |s| - i
  {
    if i < |s| {
      if IsDigit(s[i]) {
        RunIsShown(s, i);
        UnpaddedPrints(s, RunEnd(s, i));
        hide *;
        PrintRun(s, i);
      } else {
        UnpaddedPrints(s, i + 1);
        hide *;
        PrintByte(s, i);
      }
    }
  }

  lemma PrintRun(s: string, i: nat)
    requires i < |s| && IsDigit(s[i])
    requires Show(Value(s[i..RunEnd(s, i)])) == s[i..RunEnd(s, i)]
    requires Print(TokensFrom(s, RunEnd(s, i))) == s[RunEnd(s, i)..]
    ensures Print(TokensFrom(s, i)) == s[i..]
  {
    hide *;
    var e := RunEnd(s, i);
    var n, rest := Value(s[i..e]), TokensFrom(s, e);
    TokensUnfold(s, i);
    assert TokensFrom(s, i) == [Num(n)] + rest;
    PrintOne(Num(n), rest);
    Joined(s, i, e);
  }

  lemma Joined(s: string, i: nat, e: nat)
    requires i <= e <= |s|
    ensures s[i..e] + s[e..] == s[i..]
  {
  }

  lemma PrintByte(s: string, i: nat)
    requires i < |s| && !IsDigit(s[i]) && Print(TokensFrom(s, i + 1)) == s[i + 1..]
    ensures Print(TokensFrom(s, i)) == s[i..]
  {
    TokensUnfold(s, i);
    hide TokensFrom, RunEnd, Value, Show, Print;
    PrintOne(Sym(s[i]), TokensFrom(s, i + 1));
    assert s[i..] == [s[i]] + s[i + 1..];
  }

  lemma PrintOne(t: Token, ts: seq<Token>)
    ensures Print([t] + ts) == (match t case Num(n) => Show(n) case Sym(c) => [c]) + Print(ts)
  {
    assert ([t] + ts)[1..] == ts;
  }

  /** Every name is its unpadded form with zeros put in front of digit runs. */
  lemma {:induction false} NamesArePaddings(s: string)
    ensures PaddedTo(Unpadded(s), s)
    decreases |s|
  {
    if i: nat :| i < |s| && PadAt(s, i) {
      PadIsInvisible(s, i);
      NamesArePaddings(Cut(s, i));
    } else {
      UnpaddedPrints(s, 0);
      assert s[0..] == s;
    }
  }

  lemma {:induction false} PaddingKeepsTokens(s: string, t: string)
    requires PaddedTo(s, t)
    ensures Tokens(s) == Tokens(t)
    decreases |t|
  {
    if s != t {
      var i: nat :| i < |t| && PadAt(t, i) && PaddedTo(s, Cut(t, i));
      PaddingKeepsTokens(s, Cut(t, i));
      PadIsInvisible(t, i);
    }
  }

  /** Said of the names alone: two windows tie exactly when their ordinals agree and both names come from one
      name by putting zeros in front of its digit runs. */
  lemma TieIffPaddings(a: Window, b: Window)
    ensures Tie(a, b) <==> a.ordinal == b.ordinal && exists s :: PaddedTo(s, a.name) && PaddedTo(s, b.name)
  {
    TieIff(a, b);
    NamesArePaddings(a.name);
    NamesArePaddings(b.name);
    if Unpadded(a.name) == Unpadded(b.name) {
      assert PaddedTo(Unpadded(a.name), a.name) && PaddedTo(Unpadded(a.name), b.name);
    }
    if s :| PaddedTo(s, a.name) && PaddedTo(s, b.name) {
      PaddingKeepsTokens(s, a.name);
      PaddingKeepsTokens(s, b.name);
    }
  }

  /** `Less` is a strict weak order: irreflexive, asymmetric, transitive, and so is the tie. */
  lemma LessIsStrictWeak(a: Window, b: Window, c: Window)
    ensures !Less(a, a) && !(Less(a, b) && Less(b, a))
    ensures Less(a, b) && Less(b, c) ==> Less(a, c)
    ensures Tie(a, b) && Tie(b, c) ==> Tie(a, c)
    ensures Tie(a, b) && Less(b, c) ==> Less(a, c)
    ensures Less(a, b) && Tie(b, c) ==> Less(a, c)
  {
    var x, y, z := Tokens(a.name), Tokens(b.name), Tokens(c.name);
    LexTotal(x, y);
    LexTotal(y, z);
    if LexLess(x, y) && LexLess(y, z) {
      LexTransitive(x, y, z);
    }
  }

  // ---- two sides sorting the same windows ----

  ghost predicate Sorted(ws: seq<Window>) {
    forall i, j | 0 <= i < j < |ws| :: !Less(ws[j], ws[i])
  }

  ghost predicate NoTies(ws: seq<Window>) {
    forall a, b | a in ws && b in ws && a != b :: !Tie(a, b)
  }

  /** A sorted list starts with a window nothing in it comes before. */
  lemma SortedHead(ws: seq<Window>, w: Window)
    requires Sorted(ws) && w in ws
    ensures !Less(w, ws[0])
  {
    var i :| 0 <= i < |ws| && ws[i] == w;
    LessIsStrictWeak(w, w, w);
  }

  lemma HeadsAgree(xs: seq<Window>, ys: seq<Window>)
    requires Sorted(xs) && Sorted(ys) && multiset(xs) == multiset(ys) && NoTies(xs) && xs != [] && ys != []
    ensures xs[0] == ys[0]
  {
    assert xs[0] in multiset(xs) && ys[0] in multiset(ys);
    assert xs[0] in ys && ys[0] in xs;
    SortedHead(xs, ys[0]);
    SortedHead(ys, xs[0]);
    hide Less;
    assert Tie(xs[0], ys[0]);
  }

  lemma {:induction false} SortedAgree(xs: seq<Window>, ys: seq<Window>)
    requires Sorted(xs) && Sorted(ys) && multiset(xs) == multiset(ys) && NoTies(xs)
    ensures xs == ys
  {
    assert |xs| == |multiset(xs)| == |multiset(ys)| == |ys|;
    if xs != [] {
      hide Less, Tie;
      HeadsAgree(xs, ys);
      assert xs == [xs[0]] + xs[1..] && ys == [ys[0]] + ys[1..];
      assert multiset(xs[1..]) == multiset(xs) - multiset{xs[0]};
      assert multiset(ys[1..]) == multiset(ys) - multiset{ys[0]};
      SortedAgree(xs[1..], ys[1..]);
    }
  }

  /** Two that tie can be swapped in a sorted list and it stays sorted. */
  lemma SwappedTiesStaySorted(ws: seq<Window>, i: nat, j: nat)
    requires Sorted(ws) && i < j < |ws| && Tie(ws[i], ws[j])
    ensures
      var vs := ws[i := ws[j]][j := ws[i]];
      Sorted(vs) && multiset(vs) == multiset(ws)
  {
    var vs := ws[i := ws[j]][j := ws[i]];
    forall k, l | 0 <= k < l < |vs|
      ensures !Less(vs[l], vs[k])
    {
      SwapKeepsPair(ws, i, j, k, l);
    }
  }

  lemma SwapKeepsPair(ws: seq<Window>, i: nat, j: nat, k: nat, l: nat)
    requires Sorted(ws) && i < j < |ws| && Tie(ws[i], ws[j]) && k < l < |ws|
    ensures
      var vs := ws[i := ws[j]][j := ws[i]];
      !Less(vs[l], vs[k])
  {
    var vs := ws[i := ws[j]][j := ws[i]];
    var a, b := ws[i], ws[j];
    LessIsStrictWeak(b, a, ws[k]);
    LessIsStrictWeak(a, b, ws[k]);
    LessIsStrictWeak(ws[l], a, b);
    LessIsStrictWeak(ws[l], b, a);
  }

  /** Every sorted arrangement of the windows is the same one if and only if no two different windows tie:
      this is when two sides that read the windows in different orders agree on the first. */
  lemma OneArrangementIff(ws: seq<Window>)
    requires Sorted(ws)
    ensures (forall vs | Sorted(vs) && multiset(vs) == multiset(ws) :: vs == ws) <==> NoTies(ws)
  {
    if NoTies(ws) {
      forall vs | Sorted(vs) && multiset(vs) == multiset(ws)
        ensures vs == ws
      {
        SortedAgree(ws, vs);
      }
    } else {
      var a, b :| a in ws && b in ws && a != b && Tie(a, b);
      var i :| 0 <= i < |ws| && ws[i] == a;
      var j :| 0 <= j < |ws| && ws[j] == b;
      var lo, hi := if i < j then i else j, if i < j then j else i;
      SwappedTiesStaySorted(ws, lo, hi);
      var vs := ws[lo := ws[hi]][hi := ws[lo]];
      assert vs[lo] != ws[lo];
    }
  }
}
