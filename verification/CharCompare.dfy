/** Comparison of two column values (tmax-lib/ex.cc: exp_eval_condition). */
module CharCompare {
  import KeyRange
  import opened RowData

  const BLANK: Byte := 0x20

  datatype Op = Equal | NotEqual | Greater | Less | GreaterEqual | LessEqual | OtherOp

  function Sign(a: int, b: int): int {
    if a < b then -1 else if a > b then 1 else 0
  }

  function Min(m: nat, n: nat): nat {
    if m <= n then m else n
  }

  function Max(m: nat, n: nat): nat {
    if m <= n then n else m
  }

  // ---------------------------------------------------------------- the comparison

  /** memcmp over the bytes from i to n. */
  function MemCmp(l: seq<Byte>, r: seq<Byte>, i: nat, n: nat): (c: int)
    requires i <= n <= |l| && n <= |r|
    ensures -1 <= c <= 1
    decreases n - i
  {
    if i == n then 0 else if l[i] != r[i] then Sign(l[i], r[i]) else MemCmp(l, r, i + 1, n)
  }

  /** Whether s has only blanks from i on. */
  predicate BlankFrom(s: seq<Byte>, i: nat)
    requires i <= |s|
  {
    forall k :: i <= k < |s| ==> s[k] == BLANK
  }

  function Compare(l: seq<Byte>, r: seq<Byte>, isChar: bool): int {
    var m := Min(|l|, |r|);
    var prefix := MemCmp(l, r, 0, m);
    if prefix != 0 then prefix
    else if !isChar then |l| - |r|
    else if !BlankFrom(r, m) then -1
    else if !BlankFrom(l, m) then 1
    else 0
  }

  method CompareValues(l: seq<Byte>, r: seq<Byte>, isChar: bool) returns (cmp: int)
    ensures cmp == Compare(l, r, isChar)
  {
    var m := Min(|l|, |r|);
    var prefix := MemCmp(l, r, 0, m);
    if !isChar {
      return if prefix != 0 then prefix else |l| - |r|;
    }
    if prefix != 0 {
      return prefix;
    }
    cmp := 0;
    if |l| < |r| {
      for i := |l| to |r|
        invariant cmp == 0 && forall k :: |l| <= k < i ==> r[k] == BLANK
      {
        if r[i] != BLANK {
          return -1;
        }
      }
    } else if |l| > |r| {
      for i := |r| to |l|
        invariant cmp == 0 && forall k :: |r| <= k < i ==> l[k] == BLANK
      {
        if l[i] != BLANK {
          return 1;
        }
      }
    }
  }

  predicate Decide(op: Op, cmp: int) {
    match op
    case Equal => cmp == 0
    case NotEqual => cmp != 0
    case Greater => cmp > 0
    case Less => cmp < 0
    case GreaterEqual => cmp >= 0
    case LessEqual => cmp <= 0
    case OtherOp => false
  }

  /** A NULL operand (length 0) makes every condition false. */
  predicate Condition(l: seq<Byte>, r: seq<Byte>, op: Op, isChar: bool) {
    l != [] && r != [] && Decide(op, Compare(l, r, isChar))
  }

  method EvalCondition(l: seq<Byte>, r: seq<Byte>, op: Op, isChar: bool) returns (b: bool)
    ensures b == Condition(l, r, op, isChar)
  {
    if Min(|l|, |r|) == 0 {
      return false;
    }
    var cmp := CompareValues(l, r, isChar);
    b := Decide(op, cmp);
  }

  // ---------------------------------------------------------------- equality up to trailing blanks

  /** s without its trailing blanks. */
  function Stripped(s: seq<Byte>): seq<Byte> {
    if s == [] || s[|s| - 1] != BLANK then s else Stripped(s[..|s| - 1])
  }

  lemma {:induction false} StrippedIs(s: seq<Byte>, n: nat)
    requires n <= |s| && BlankFrom(s, n) && (n > 0 ==> s[n - 1] != BLANK)
    ensures Stripped(s) == s[..n]
    decreases |s|
  {
    if n < |s| {
      StrippedIs(s[..|s| - 1], n);
      assert s[..|s| - 1][..n] == s[..n];
    } else {
      assert s[..n] == s;
    }
  }

  /** Where the trailing blanks begin. */
  function Visible(s: seq<Byte>, i: nat): (n: nat)
    requires i <= |s| && BlankFrom(s, i)
    ensures n <= i && BlankFrom(s, n) && (n > 0 ==> s[n - 1] != BLANK)
  {
    if i == 0 || s[i - 1] != BLANK then i else Visible(s, i - 1)
  }

  lemma {:induction false} MemCmpZero(l: seq<Byte>, r: seq<Byte>, i: nat, n: nat)
    requires i <= n <= |l| && n <= |r|
    ensures MemCmp(l, r, i, n) == 0 <==> forall k :: i <= k < n ==> l[k] == r[k]
    decreases n - i
  {
    if i < n && l[i] == r[i] {
      MemCmpZero(l, r, i + 1, n);
    }
  }

  /** Character values compare equal exactly when they agree up to trailing blanks. */
  lemma CharEqual(l: seq<Byte>, r: seq<Byte>)
    ensures Compare(l, r, true) == 0 <==> Stripped(l) == Stripped(r)
  {
    var m, a, b := Min(|l|, |r|), Visible(l, |l|), Visible(r, |r|);
    MemCmpZero(l, r, 0, m);
    StrippedIs(l, a);
    StrippedIs(r, b);
    if Compare(l, r, true) == 0 {
      assert a <= m && b <= m;
      assert a == b;
      assert l[..a] == r[..b];
    }
    if Stripped(l) == Stripped(r) {
      assert a == b && forall k :: 0 <= k < a ==> l[k] == l[..a][k] && r[k] == r[..b][k];
    }
  }

  /** Other values compare equal exactly when they are equal. */
  lemma BinaryEqual(l: seq<Byte>, r: seq<Byte>)
    ensures Compare(l, r, false) == 0 <==> l == r
  {
    MemCmpZero(l, r, 0, Min(|l|, |r|));
  }

  // ---------------------------------------------------------------- the order

  /** Byte i of s padded with blanks. */
  function Padded(s: seq<Byte>, i: nat): Byte {
    if i < |s| then s[i] else BLANK
  }

  /** Lexicographic comparison of the padded strings, from i to n. */
  function Lex(l: seq<Byte>, r: seq<Byte>, i: nat, n: nat): (c: int)
    ensures -1 <= c <= 1
    decreases n - i
  {
    if i >= n then 0
    else if Padded(l, i) != Padded(r, i) then Sign(Padded(l, i), Padded(r, i))
    else Lex(l, r, i + 1, n)
  }

  /** The order of the blank-padded strings. */
  function PaddedOrder(l: seq<Byte>, r: seq<Byte>): int {
    Lex(l, r, 0, Max(|l|, |r|))
  }

  lemma {:induction false} LexPrefix(l: seq<Byte>, r: seq<Byte>, i: nat, m: nat, n: nat)
    requires i <= m <= n && m <= |l| && m <= |r|
    ensures Lex(l, r, i, n) == if MemCmp(l, r, i, m) != 0 then MemCmp(l, r, i, m) else Lex(l, r, m, n)
    decreases m - i
  {
    if i < m && l[i] == r[i] {
      LexPrefix(l, r, i + 1, m, n);
    }
  }

  /** The first byte of s from i on that is not a blank; |s| when there is none. */
  function FirstVisible(s: seq<Byte>, i: nat): (k: nat)
    requires i <= |s|
    ensures i <= k <= |s| && (forall j :: i <= j < k ==> s[j] == BLANK) && (k < |s| ==> s[k] != BLANK)
    decreases |s| - i
  {
    if i == |s| || s[i] != BLANK then i else FirstVisible(s, i + 1)
  }

  lemma {:induction false} LexTail(l: seq<Byte>, r: seq<Byte>, i: nat)
    requires |l| <= i <= |r|
    ensures var k := FirstVisible(r, i);
      Lex(l, r, i, |r|) == (if k == |r| then 0 else Sign(BLANK, r[k])) && Lex(r, l, i, |r|) == -Lex(l, r, i, |r|)
    decreases |r| - i
  {
    if i < |r| && r[i] == BLANK {
      LexTail(l, r, i + 1);
    }
  }

  /** The longer value goes on, after a common prefix, with a control byte before anything visible. */
  predicate ControlTail(l: seq<Byte>, r: seq<Byte>) {
    var m := Min(|l|, |r|);
    && MemCmp(l, r, 0, m) == 0
    && ((FirstVisible(r, m) < |r| && r[FirstVisible(r, m)] < BLANK)
        || (FirstVisible(l, m) < |l| && l[FirstVisible(l, m)] < BLANK))
  }

  /** The comparison is the order of the padded strings exactly when there is no such tail. */
  lemma CharOrderExact(l: seq<Byte>, r: seq<Byte>)
    ensures Compare(l, r, true) == PaddedOrder(l, r) <==> !ControlTail(l, r)
  {
    var m, n := Min(|l|, |r|), Max(|l|, |r|);
    LexPrefix(l, r, 0, m, n);
    if |l| <= |r| {
      LexTail(l, r, m);
      BlankOrVisible(r, m);
    } else {
      LexTail(r, l, m);
      BlankOrVisible(l, m);
    }
  }

  lemma BlankOrVisible(s: seq<Byte>, i: nat)
    requires i <= |s|
    ensures BlankFrom(s, i) <==> FirstVisible(s, i) == |s|
  {
  }

  predicate Printable(s: seq<Byte>) {
    forall k :: 0 <= k < |s| ==> s[k] >= BLANK
  }

  lemma PrintableOrder(l: seq<Byte>, r: seq<Byte>)
    requires Printable(l) && Printable(r)
    ensures Compare(l, r, true) == PaddedOrder(l, r)
  {
    CharOrderExact(l, r);
  }

  lemma {:induction false} LexExtend(l: seq<Byte>, r: seq<Byte>, i: nat, n: nat, o: nat)
    requires Max(|l|, |r|) <= n <= o
    ensures Lex(l, r, i, n) == Lex(l, r, i, o)
    decreases o - i
  {
    if i < o {
      if Padded(l, i) == Padded(r, i) {
        LexExtend(l, r, i + 1, n, o);
      }
    }
  }

  lemma {:induction false} LexTransitive(a: seq<Byte>, b: seq<Byte>, c: seq<Byte>, i: nat, n: nat)
    requires Lex(a, b, i, n) <= 0 && Lex(b, c, i, n) <= 0
    ensures Lex(a, c, i, n) <= 0
    decreases n - i
  {
    if i < n && Padded(a, i) == Padded(b, i) == Padded(c, i) {
      LexTransitive(a, b, c, i + 1, n);
    }
  }

  lemma PaddedOrderTransitive(a: seq<Byte>, b: seq<Byte>, c: seq<Byte>)
    requires PaddedOrder(a, b) <= 0 && PaddedOrder(b, c) <= 0
    ensures PaddedOrder(a, c) <= 0
  {
    var n := Max(|a|, Max(|b|, |c|));
    LexExtend(a, b, 0, Max(|a|, |b|), n);
    LexExtend(b, c, 0, Max(|b|, |c|), n);
    LexExtend(a, c, 0, Max(|a|, |c|), n);
    LexTransitive(a, b, c, 0, n);
  }

  lemma {:induction false} MemCmpReversed(l: seq<Byte>, r: seq<Byte>, i: nat, n: nat)
    requires i <= n <= |l| && n <= |r|
    ensures MemCmp(r, l, i, n) == -MemCmp(l, r, i, n)
    decreases n - i
  {
    if i < n && l[i] == r[i] {
      MemCmpReversed(l, r, i + 1, n);
    }
  }

  /** Swapping the operands flips the sign, for every pair of values. */
  lemma Reversed(l: seq<Byte>, r: seq<Byte>, isChar: bool)
    ensures Compare(r, l, isChar) == -Compare(l, r, isChar)
  {
    MemCmpReversed(l, r, 0, Min(|l|, |r|));
    assert !BlankFrom(l, Min(|l|, |r|)) ==> |l| > |r|;
    assert !BlankFrom(r, Min(|l|, |r|)) ==> |r| > |l|;
  }

  /** On printable character values, <= is a total preorder. */
  lemma TotalPreorder(a: seq<Byte>, b: seq<Byte>, c: seq<Byte>)
    requires Printable(a) && Printable(b) && Printable(c) && a != [] && b != [] && c != []
    ensures Condition(a, a, LessEqual, true)
    ensures Condition(a, b, LessEqual, true) || Condition(b, a, LessEqual, true)
    ensures Condition(a, b, LessEqual, true) && Condition(b, c, LessEqual, true) ==> Condition(a, c, LessEqual, true)
  {
    Reversed(a, b, true);
    CharEqual(a, a);
    PrintableOrder(a, b);
    PrintableOrder(b, c);
    PrintableOrder(a, c);
    if Condition(a, b, LessEqual, true) && Condition(b, c, LessEqual, true) {
      PaddedOrderTransitive(a, b, c);
    }
  }

  /** A control byte breaks transitivity: "a" < "a\n" < "a " but "a" = "a ". */
  lemma ControlByteBreaksOrder()
    ensures var a: seq<Byte>, b: seq<Byte>, c: seq<Byte> := [0x61], [0x61, 0x0A], [0x61, 0x20];
      Condition(a, b, Less, true) && Condition(b, c, Less, true) && Condition(a, c, Equal, true)
  {
    var a: seq<Byte>, b: seq<Byte>, c: seq<Byte> := [0x61], [0x61, 0x0A], [0x61, 0x20];
    assert MemCmp(a, b, 0, 1) == MemCmp(a, c, 0, 1) == 0;
    assert !BlankFrom(b, 1) by {
      assert b[1] != BLANK;
    }
    assert MemCmp(b, c, 1, 2) == -1;
    assert MemCmp(b, c, 0, 2) == -1;
  }

  /** The six operators agree with one another, whatever the operands. */
  lemma OperatorsConsistent(l: seq<Byte>, r: seq<Byte>, isChar: bool)
    requires l != [] && r != []
    ensures Condition(l, r, NotEqual, isChar) <==> !Condition(l, r, Equal, isChar)
    ensures Condition(l, r, GreaterEqual, isChar) <==> !Condition(l, r, Less, isChar)
    ensures Condition(l, r, LessEqual, isChar) <==> !Condition(l, r, Greater, isChar)
    ensures Condition(l, r, LessEqual, isChar) <==> Condition(l, r, Less, isChar) || Condition(l, r, Equal, isChar)
    ensures Condition(l, r, Greater, isChar) <==> Condition(r, l, Less, isChar)
    ensures Condition(l, r, Equal, isChar) <==> Condition(r, l, Equal, isChar)
  {
    Reversed(l, r, isChar);
  }

  // ---------------------------------------------------------------- in terms of the byte order

  /** Up to a common length, memcmp is the byte order of the rest. */
  lemma {:induction false} MemCmpOrder(l: seq<Byte>, r: seq<Byte>, i: nat)
    requires i <= |l| && i <= |r|
    ensures var c := MemCmp(l, r, i, Min(|l|, |r|));
      KeyRange.Less(l[i..], r[i..]) <==> c < 0 || (c == 0 && |l| < |r|)
    decreases |l| - i
  {
    if i < Min(|l|, |r|) {
      assert l[i..][0] == l[i] && l[i..][1..] == l[i + 1..] && r[i..][0] == r[i] && r[i..][1..] == r[i + 1..];
      MemCmpOrder(l, r, i + 1);
    }
  }

  /** Values that are not character values compare in the order of their bytes. */
  lemma BinaryOrder(l: seq<Byte>, r: seq<Byte>)
    ensures Compare(l, r, false) < 0 <==> KeyRange.Less(l, r)
    ensures Compare(l, r, false) > 0 <==> KeyRange.Less(r, l)
    ensures Compare(l, r, false) == 0 <==> l == r
  {
    assert l[0..] == l && r[0..] == r;
    MemCmpOrder(l, r, 0);
    MemCmpOrder(r, l, 0);
    Reversed(l, r, false);
    BinaryEqual(l, r);
  }

  /** So the operators are those of a total order. */
  lemma BinaryTotalOrder(a: seq<Byte>, b: seq<Byte>, c: seq<Byte>)
    requires a != [] && b != [] && c != []
    ensures Condition(a, b, Less, false) || Condition(b, a, Less, false) || a == b
    ensures Condition(a, b, Less, false) && Condition(b, c, Less, false) ==> Condition(a, c, Less, false)
    ensures Condition(a, b, LessEqual, false) && Condition(b, a, LessEqual, false) ==> a == b
  {
    BinaryOrder(a, b);
    BinaryOrder(b, a);
    BinaryOrder(b, c);
    BinaryOrder(a, c);
    KeyRange.LessTransitive(a, b, c);
  }

  /** s with blanks up to length n. */
  function PaddedTo(s: seq<Byte>, n: nat): (t: seq<Byte>)
    ensures |t| == n && forall i :: 0 <= i < n ==> t[i] == Padded(s, i)
  {
    seq(n, (i: nat) => Padded(s, i))
  }

  lemma {:induction false} LexOrder(l: seq<Byte>, r: seq<Byte>, i: nat, n: nat)
    requires i <= n
    ensures Lex(l, r, i, n) < 0 <==> KeyRange.Less(PaddedTo(l, n)[i..], PaddedTo(r, n)[i..])
    decreases n - i
  {
    var a, b := PaddedTo(l, n), PaddedTo(r, n);
    if i < n {
      assert a[i..][0] == a[i] && a[i..][1..] == a[i + 1..] && b[i..][0] == b[i] && b[i..][1..] == b[i + 1..];
      LexOrder(l, r, i + 1, n);
    }
  }

  /** The padded order is the byte order of the two values, blank-padded to one length. */
  lemma PaddedOrderIs(l: seq<Byte>, r: seq<Byte>)
    ensures var n := Max(|l|, |r|);
      PaddedOrder(l, r) < 0 <==> KeyRange.Less(PaddedTo(l, n), PaddedTo(r, n))
  {
    var n := Max(|l|, |r|);
    LexOrder(l, r, 0, n);
    assert PaddedTo(l, n)[0..] == PaddedTo(l, n) && PaddedTo(r, n)[0..] == PaddedTo(r, n);
  }

  /** < on any operands: false with a NULL; else the byte order, of printable character values after
      padding. */
  lemma LessIs(l: seq<Byte>, r: seq<Byte>, isChar: bool)
    requires isChar ==> Printable(l) && Printable(r)
    ensures Condition(l, r, Less, isChar) <==>
      && l != [] && r != []
      && var n := Max(|l|, |r|); if isChar then KeyRange.Less(PaddedTo(l, n), PaddedTo(r, n)) else KeyRange.Less(l, r)
  {
    if isChar {
      PrintableOrder(l, r);
      PaddedOrderIs(l, r);
    } else {
      BinaryOrder(l, r);
    }
  }

  /** A NULL operand makes every condition false, and so does an operator outside the six. */
  lemma NeverTrue(l: seq<Byte>, r: seq<Byte>, op: Op, isChar: bool)
    requires l == [] || r == [] || op == OtherOp
    ensures !Condition(l, r, op, isChar)
  {
  }
}
