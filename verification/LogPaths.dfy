/** The names of the log files of a process. */
module LogPaths {

  function Digit(d: int): char
    requires 0 <= d < 10
  {
    ['0', '1', '2', '3', '4', '5', '6', '7', '8', '9'][d]
  }

  /** The digits of n. */
  function Digits(n: nat): string {
    if n < 10 then [Digit(n)] else Digits(n / 10) + [Digit(n % 10)]
  }

  /** %d */
  function Decimal(n: int): string {
    if n < 0 then "-" + Digits(-n) else Digits(n)
  }

  /** The prefix that fs_cleanup_process looks for. */
  function LogPrefix(pid: int): string {
    "/logs/drone_" + Decimal(pid) + "_"
  }

  // ----- reading numbers

  /** The number that a row of digits denotes. */
  function Value(d: string): int {
    if d == [] then 0 else 10 * Value(d[..|d| - 1]) + (d[|d| - 1] as int - '0' as int)
  }

  /** A row of digits that does not start with a superfluous zero. */
  predicate Numeral(d: string) {
    && |d| > 0 && (forall i :: 0 <= i < |d| ==> '0' <= d[i] <= '9')
    && (d[0] == '0' ==> |d| == 1)
  }

  /** d is how the number n is written. */
  predicate Reads(d: string, n: int) {
    if n < 0 then |d| > 1 && d[0] == '-' && Numeral(d[1..]) && Value(d[1..]) == -n
    else Numeral(d) && Value(d) == n
  }

  lemma {:induction false} DigitsRead(n: nat)
    ensures Numeral(Digits(n)) && Value(Digits(n)) == n
    ensures n > 0 ==> Digits(n)[0] != '0'
  {
    var d := Digits(n);
    if n < 10 {
      assert d[..|d| - 1] == [];
    } else {
      DigitsRead(n / 10);
      assert d[..|d| - 1] == Digits(n / 10);
    }
  }

  /** Printing a number and reading it back gives the number. */
  lemma DecimalReads(n: int)
    ensures Reads(Decimal(n), n)
  {
    DigitsRead(if n < 0 then -n else n);
    if n < 0 {
      assert Decimal(n)[1..] == Digits(-n);
    }
  }

  lemma {:induction false} ValueBounds(d: string)
    requires Numeral(d)
    ensures Value(d) >= 0 && (d[0] != '0' ==> Value(d) >= 1) && (|d| > 1 ==> Value(d) >= 10)
  {
    var rest := d[..|d| - 1];
    if |d| > 1 {
      ValueBounds(rest);
    } else {
      assert rest == [];
    }
  }

  /** There is only one way to write a number. */
  lemma {:induction false} NumeralUnique(d: string, e: string)
    requires Numeral(d) && Numeral(e) && Value(d) == Value(e)
    ensures d == e
  {
    var a, b := d[..|d| - 1], e[..|e| - 1];
    ValueBounds(d);
    ValueBounds(e);
    assert Value(d) == 10 * Value(a) + (d[|d| - 1] as int - '0' as int);
    assert Value(e) == 10 * Value(b) + (e[|e| - 1] as int - '0' as int);
    if |d| > 1 && |e| > 1 {
      NumeralUnique(a, b);
    } else {
      assert Value([]) == 0;
      assert |d| == |e| == 1;
    }
    assert d == a + [d[|d| - 1]] && e == b + [e[|e| - 1]];
  }

  lemma ReadsUnique(d: string, n: int, e: string, k: int)
    requires Reads(d, n) && Reads(e, k)
    ensures d == e <==> n == k
  {
    if n == k {
      NumeralUnique(if n < 0 then d[1..] else d, if n < 0 then e[1..] else e);
      assert n < 0 ==> d == ['-'] + d[1..] && e == ['-'] + e[1..];
    }
  }

  // ----- paths

  /** What stands before the first underscore. */
  lemma SameUpToUnderscore(d: string, e: string, rest: string)
    requires (forall i :: 0 <= i < |d| ==> d[i] != '_') && (forall i :: 0 <= i < |e| ==> e[i] != '_')
    requires d + "_" <= e + "_" + rest
    ensures d == e
  {
    var x, y := d + "_", e + "_" + rest;
    assert forall i :: 0 <= i < |x| ==> x[i] == y[i];
    assert x[|d|] == '_' && y[|e|] == '_';
    assert |d| == |e|;
    assert forall i :: 0 <= i < |d| ==> d[i] == x[i] == y[i] == e[i];
  }

  lemma AfterCommonPart(c: string, x: string, y: string)
    requires c + x <= c + y
    ensures x <= y
  {
    assert (c + x)[|c|..] == x && (c + y)[|c|..] == y;
    assert (c + y)[..|c + x|] == c + x;
    assert forall i :: 0 <= i < |x| ==> x[i] == (c + x)[|c| + i] == (c + y)[|c| + i] == y[i];
  }

  lemma NoUnderscore(d: string, n: int)
    requires Reads(d, n)
    ensures forall i :: 0 <= i < |d| ==> d[i] != '_'
  {
    assert n < 0 ==> d == ['-'] + d[1..];
  }

  /** Of the paths that begin with "/logs/drone_", the number d of a process and an underscore, the prefix of
      process p fits exactly those whose number is p. */
  lemma PrefixFitsOwnFilesOnly(p: int, d: string, q: int, rest: string)
    requires Reads(d, q)
    ensures LogPrefix(p) <= "/logs/drone_" + d + "_" + rest <==> p == q
  {
    hide Decimal, Reads;
    var c, e := "/logs/drone_", Decimal(p);
    DecimalReads(p);
    ReadsUnique(e, p, d, q);
    assert LogPrefix(p) == c + (e + "_") && c + d + "_" + rest == c + (d + "_" + rest);
    if LogPrefix(p) <= c + d + "_" + rest {
      AfterCommonPart(c, e + "_", d + "_" + rest);
      NoUnderscore(e, p);
      NoUnderscore(d, q);
      SameUpToUnderscore(e, d, rest);
    }
    if p == q {
      assert c + d + "_" + rest == (c + d + "_") + rest;
    }
  }

  /** It fits no path that does not begin so. */
  lemma PrefixFitsLogsOnly(p: int, path: string)
    requires LogPrefix(p) <= path
    ensures "/logs/drone_" <= path
  {
    assert LogPrefix(p) == "/logs/drone_" + (Decimal(p) + "_");
  }

  /** The kernel's log files: that of process q with number k. */
  lemma PrefixFitsKernelFiles(p: int, d: string, q: int, e: string, k: int)
    requires Reads(d, q) && Reads(e, k)
    ensures LogPrefix(p) <= "/logs/drone_" + d + "_seq_" + e + ".log" <==> p == q
  {
    PrefixFitsOwnFilesOnly(p, d, q, "seq_" + e + ".log");
    assert "/logs/drone_" + d + "_seq_" + e + ".log" == "/logs/drone_" + d + "_" + ("seq_" + e + ".log");
  }
}
