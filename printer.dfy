/**
 * The output routines of the interpreter: `vm_putn`, `vm_putf`, `vm_print` and
 * the string that `vm_puts` writes. Each renders to a character sequence; the
 * machine appends it to its output.
 */
module Printer {
  import opened Results
  import opened Values

  function Digit(d: int): char
    requires 0 <= d < 10
  {
    ('0' as int + d) as char
  }

  predicate IsDigit(c: char) {
    '0' <= c <= '9'
  }

  predicate AllDigits(s: string) {
    forall i :: 0 <= i < |s| ==> IsDigit(s[i])
  }

  /** `vm_putn`: a minus sign before negative numbers, then the decimal digits. */
  function PutN(n: int): string
    decreases if n < 0 then 1 - n else n
  {
    if n < 0 then "-" + PutN(-n)
    else (if n >= 10 then PutN(n / 10) else "") + [Digit(n % 10)]
  }

  /** The number a string of decimal digits denotes. */
  function DigitsValue(s: string): nat
    requires AllDigits(s)
  {
    if s == [] then 0 else DigitsValue(s[..|s| - 1]) * 10 + (s[|s| - 1] as int - '0' as int)
  }

  /** Reads back a rendering: an optional minus sign followed by at least one digit. */
  function ParseN(s: string): Option<int> {
    if |s| > 0 && s[0] == '-' then
      (if |s| > 1 && AllDigits(s[1..]) then var d: int := DigitsValue(s[1..]); Some(-d) else None)
    else if |s| > 0 && AllDigits(s) then Some(DigitsValue(s))
    else None
  }

  /** A natural number is printed as its decimal digits, without a leading zero. */
  lemma {:induction false} PutNDigits(n: int)
    requires 0 <= n
    ensures |PutN(n)| >= 1 && AllDigits(PutN(n))
    ensures PutN(n)[0] == '0' ==> n == 0
    ensures DigitsValue(PutN(n)) == n
  {
    if n >= 10 {
      PutNDigits(n / 10);
      var s := PutN(n / 10) + [Digit(n % 10)];
      assert s[..|s| - 1] == PutN(n / 10);
    } else {
      assert PutN(n) == [Digit(n)];
    }
  }

  /** Round trip: the rendering of every integer reads back as that integer. */
  /** Reading back a minus sign and digits gives the negated digits' value. */
  lemma ParseNegative(t: string)
    requires |t| >= 1 && AllDigits(t)
    ensures ParseN("-" + t) == Some(-(DigitsValue(t) as int))
  {
    assert ("-" + t)[1..] == t;
  }

  /** Reading back digits alone gives their value. */
  lemma ParseDigits(t: string)
    requires |t| >= 1 && AllDigits(t)
    ensures ParseN(t) == Some(DigitsValue(t) as int)
  {
    assert IsDigit(t[0]);
  }

  lemma PutNRoundTrip(n: int)
    ensures ParseN(PutN(n)) == Some(n)
  {
    if n < 0 {
      PutNDigits(-n);
      assert PutN(n) == "-" + PutN(-n);
      ParseNegative(PutN(-n));
    } else {
      PutNDigits(n);
      ParseDigits(PutN(n));
    }
  }


  /** `vm_putf`: a number with a zero remainder modulo 1 is printed as its integer part. */
  function PutF(x: real): string {
    if FMod(x, 1.0) == 0.0 then PutN(Trunc(x)) else ""
  }

  /** Integral numbers print as their integer; any other number prints nothing. */
  lemma PutFIntegral(x: real)
    ensures x == (x.Floor as real) ==> PutF(x) == PutN(x.Floor)
    ensures x != (x.Floor as real) ==> PutF(x) == ""
  {
    assert x / 1.0 == x;
    if x == (x.Floor as real) {
      assert Trunc(x) == x.Floor;
    }
  }

  /** How far an array value is from the bottom of the heap's handle order. */
  function Rank(v: Value): nat {
    if v.Arr? then v.handle + 1 else 0
  }

  /**
   * `vm_print`: booleans as `true`/`false`, numbers through `vm_putf`, arrays
   * as their elements in brackets separated by a comma and a space.
   */
  function Print(heap: Heap, v: Value): (r: Result<string, Fault>)
    requires Ordered(heap)
    ensures v.Bool? ==> r == Ok(if v.b then "true" else "false")
    ensures v.Num? ==> r == Ok(PutF(v.n))
    ensures v.Fun? ==> r == Err(WrongType)
    ensures v.Arr? && v.handle !in heap ==> r == Err(DanglingHandle(v.handle))
    ensures v.Arr? && r.Ok? ==> |r.value| >= 2 && r.value[0] == '[' && r.value[|r.value| - 1] == ']'
    decreases Rank(v), 1, 0
  {
    match v
    case Bool(b) => Ok(if b then "true" else "false")
    case Num(x) => Ok(PutF(x))
    case Fun(_) => Err(WrongType)
    case Arr(h) =>
      if h !in heap then Err(DanglingHandle(h))
      else
        var body :- PrintFrom(heap, heap[h], 0, h + 1);
        Ok("[" + body + "]")
  }

  /** The loop of `vm_print` over the elements from index `i`, with `", "` before all but the first. */
  function PrintFrom(heap: Heap, xs: seq<Value>, i: nat, bound: nat): (r: Result<string, Fault>)
    requires Ordered(heap)
    requires i <= |xs|
    requires forall j :: 0 <= j < |xs| ==> Rank(xs[j]) < bound
    ensures i == |xs| ==> r == Ok("")
    decreases bound, 0, |xs| - i
  {
    if i == |xs| then Ok("")
    else
      var item :- Print(heap, xs[i]);
      var rest :- PrintFrom(heap, xs, i + 1, bound);
      Ok((if i != 0 then ", " else "") + item + rest)
  }

  /** `parts` with `sep` between neighbours. */
  function Joined(sep: string, parts: seq<string>): string {
    if parts == [] then ""
    else if |parts| == 1 then parts[0]
    else parts[0] + sep + Joined(sep, parts[1..])
  }

  /** What a value prints as; nothing when printing it faults. */
  function Rendered(heap: Heap, v: Value): string
    requires Ordered(heap)
  {
    match Print(heap, v)
    case Ok(text) => text
    case Err(_) => ""
  }

  /** What each of `xs` prints as, in order. */
  function Renderings(heap: Heap, xs: seq<Value>): (r: seq<string>)
    requires Ordered(heap)
    ensures |r| == |xs| && forall i :: 0 <= i < |xs| ==> r[i] == Rendered(heap, xs[i])
  {
    if xs == [] then [] else [Rendered(heap, xs[0])] + Renderings(heap, xs[1..])
  }

  /** Joining from position `i` on: the part at `i`, then the separator and the rest if any. */
  lemma JoinedFrom(sep: string, parts: seq<string>, i: nat)
    requires i < |parts|
    ensures Joined(sep, parts[i..]) == if i + 1 == |parts| then parts[i] else parts[i] + sep + Joined(sep, parts[i + 1..])
  {
    assert parts[i..][0] == parts[i];
    assert parts[i..][1..] == parts[i + 1..];
  }

  /** One turn of the element loop, once the element and the rest have printed. */
  lemma PrintFromUnfold(heap: Heap, xs: seq<Value>, i: nat, bound: nat)
    requires Ordered(heap) && i < |xs|
    requires forall j :: 0 <= j < |xs| ==> Rank(xs[j]) < bound
    requires Print(heap, xs[i]).Ok? && PrintFrom(heap, xs, i + 1, bound).Ok?
    ensures PrintFrom(heap, xs, i, bound)
      == Ok((if i != 0 then ", " else "") + Print(heap, xs[i]).value + PrintFrom(heap, xs, i + 1, bound).value)
  {
  }

  /** Prefixing one more part to a separated tail extends the join by that part. */
  lemma JoinedStep(sep: string, parts: seq<string>, i: nat, tail: string)
    requires i < |parts|
    requires tail == if i + 1 == |parts| then "" else sep + Joined(sep, parts[i + 1..])
    ensures parts[i] + tail == Joined(sep, parts[i..])
  {
    JoinedFrom(sep, parts, i);
    if i + 1 < |parts| {
      var rest := Joined(sep, parts[i + 1..]);
      assert parts[i] + (sep + rest) == parts[i] + sep + rest;
    }
  }

  /** The loop from element `i >= 1` on writes `", "` before each element's rendering. */
  lemma {:induction false} PrintFromJoined(heap: Heap, xs: seq<Value>, parts: seq<string>, i: nat, bound: nat)
    requires Ordered(heap) && 1 <= i <= |xs| == |parts|
    requires forall j :: 0 <= j < |xs| ==> Rank(xs[j]) < bound
    requires forall j :: i <= j < |xs| ==> Print(heap, xs[j]) == Ok(parts[j])
    ensures PrintFrom(heap, xs, i, bound) == Ok(if i == |xs| then "" else ", " + Joined(", ", parts[i..]))
    decreases |xs| - i
  {
    if i < |xs| {
      PrintFromJoined(heap, xs, parts, i + 1, bound);
      var tail := PrintFrom(heap, xs, i + 1, bound).value;
      assert parts[i] + tail == Joined(", ", parts[i..]) by {
        JoinedStep(", ", parts, i, tail);
      }
      assert PrintFrom(heap, xs, i, bound) == Ok(", " + (parts[i] + tail)) by {
        PrintFromUnfold(heap, xs, i, bound);
        assert ", " + parts[i] + tail == ", " + (parts[i] + tail);
      }
    }
  }

  /** An array prints as the loop over its elements, in brackets, once the loop succeeds. */
  lemma PrintArrayUnfold(heap: Heap, h: Handle)
    requires Ordered(heap) && h in heap
    requires forall j :: 0 <= j < |heap[h]| ==> Rank(heap[h][j]) < h + 1
    requires PrintFrom(heap, heap[h], 0, h + 1).Ok?
    ensures Print(heap, Arr(h)) == Ok("[" + PrintFrom(heap, heap[h], 0, h + 1).value + "]")
  {
  }

  /** The first turn of the element loop writes the first element with no separator before it. */
  lemma PrintFromHead(heap: Heap, xs: seq<Value>, first: string, bound: nat)
    requires Ordered(heap) && 0 < |xs|
    requires forall j :: 0 <= j < |xs| ==> Rank(xs[j]) < bound
    requires Print(heap, xs[0]) == Ok(first) && PrintFrom(heap, xs, 1, bound).Ok?
    ensures PrintFrom(heap, xs, 0, bound) == Ok(first + PrintFrom(heap, xs, 1, bound).value)
  {
    var rest := PrintFrom(heap, xs, 1, bound).value;
    PrintFromUnfold(heap, xs, 0, bound);
    assert "" + first + rest == first + rest;
  }


  /** A join is its first part followed by the separated rest. */
  lemma JoinedHead(sep: string, parts: seq<string>, tail: string)
    requires 0 < |parts|
    requires tail == if 1 == |parts| then "" else sep + Joined(sep, parts[1..])
    ensures parts[0] + tail == Joined(sep, parts)
  {
    JoinedStep(sep, parts, 0, tail);
    assert parts[0..] == parts;
  }

  /** When the elements print as `parts`, the whole loop writes those parts joined by `", "`. */
  lemma PrintFromAll(heap: Heap, xs: seq<Value>, parts: seq<string>, bound: nat)
    requires Ordered(heap) && 0 < |xs| == |parts|
    requires forall j :: 0 <= j < |xs| ==> Rank(xs[j]) < bound
    requires forall j :: 0 <= j < |xs| ==> Print(heap, xs[j]) == Ok(parts[j])
    ensures PrintFrom(heap, xs, 0, bound) == Ok(Joined(", ", parts))
  {
    PrintFromJoined(heap, xs, parts, 1, bound);
    PrintFromHead(heap, xs, parts[0], bound);
    JoinedHead(", ", parts, PrintFrom(heap, xs, 1, bound).value);
  }

  /** An array whose elements print as `parts` renders as those parts joined by `", "`, in brackets. */
  lemma PrintArrayOf(heap: Heap, h: Handle, parts: seq<string>)
    requires Ordered(heap) && h in heap && |parts| == |heap[h]|
    requires forall j :: 0 <= j < |heap[h]| ==> Print(heap, heap[h][j]) == Ok(parts[j])
    ensures Print(heap, Arr(h)) == Ok("[" + Joined(", ", parts) + "]")
  {
    assert forall j :: 0 <= j < |heap[h]| ==> Rank(heap[h][j]) < h + 1;
    if heap[h] != [] {
      PrintFromAll(heap, heap[h], parts, h + 1);
    }
    PrintArrayUnfold(heap, h);
  }

  /** An array whose elements all print renders as their renderings joined by `", "`, in brackets. */
  lemma PrintArray(heap: Heap, h: Handle)
    requires Ordered(heap) && h in heap
    requires forall j :: 0 <= j < |heap[h]| ==> Print(heap, heap[h][j]).Ok?
    ensures Print(heap, Arr(h)) == Ok("[" + Joined(", ", Renderings(heap, heap[h])) + "]")
  {
    var parts := Renderings(heap, heap[h]);
    forall j | 0 <= j < |heap[h]|
      ensures Print(heap, heap[h][j]) == Ok(parts[j])
    {
      assert parts[j] == Rendered(heap, heap[h][j]);
    }
    PrintArrayOf(heap, h, parts);
  }

  /** From element `i` on, the first element whose printing faults decides the loop's fault. */
  lemma {:induction false} PrintFromFault(heap: Heap, xs: seq<Value>, i: nat, k: nat, bound: nat)
    requires Ordered(heap) && i <= k < |xs|
    requires forall j :: 0 <= j < |xs| ==> Rank(xs[j]) < bound
    requires forall j :: i <= j < k ==> Print(heap, xs[j]).Ok?
    requires Print(heap, xs[k]).Err?
    ensures PrintFrom(heap, xs, i, bound) == Err(Print(heap, xs[k]).error)
    decreases k - i
  {
    if i < k {
      PrintFromFault(heap, xs, i + 1, k, bound);
    }
  }

  /** An array faults with the fault of its first element that cannot be printed. */
  lemma PrintArrayFault(heap: Heap, h: Handle, k: nat)
    requires Ordered(heap) && h in heap && k < |heap[h]|
    requires forall j :: 0 <= j < k ==> Print(heap, heap[h][j]).Ok?
    requires Print(heap, heap[h][k]).Err?
    ensures Print(heap, Arr(h)) == Err(Print(heap, heap[h][k]).error)
  {
    assert forall j :: 0 <= j < |heap[h]| ==> Rank(heap[h][j]) < h + 1;
    PrintFromFault(heap, heap[h], 0, k, h + 1);
  }

  lemma PrintsTrueTwo(heap: Heap)
    requires Ordered(heap) && 0 in heap && heap[0] == [Bool(true), Num(2.0)]
    ensures Print(heap, Arr(0)) == Ok("[true, 2]")
  {
    assert PutF(2.0) == "2" by {
      PutFIntegral(2.0);
      assert PutN(2) == "2";
    }
    var parts := ["true", "2"];
    assert Print(heap, heap[0][1]) == Ok(parts[1]);
    PrintArrayOf(heap, 0, parts);
    assert parts[1..] == ["2"];
    var body := "true" + ", " + "2";
    assert Joined(", ", parts) == body;
    assert "[" + body + "]" == "[true, 2]";
  }

  /** The characters of the nested example, spelled out. */
  lemma NestedText(body: string)
    requires body == "1" + ", " + "[true, 2]"
    ensures "[" + body + "]" == "[1, [true, 2]]"
  {
  }

  /** The example of nested printing: `[1, [true, 2]]`. */
  lemma PrintNested(heap: Heap)
    requires Ordered(heap) && 0 in heap && 1 in heap
    requires heap[0] == [Bool(true), Num(2.0)] && heap[1] == [Num(1.0), Arr(0)]
    ensures Print(heap, Arr(1)) == Ok("[1, [true, 2]]")
  {
    PrintsTrueTwo(heap);
    assert PutF(1.0) == "1" by {
      PutFIntegral(1.0);
      assert PutN(1) == "1";
    }
    var parts := ["1", "[true, 2]"];
    assert Print(heap, heap[1][0]) == Ok(parts[0]);
    PrintArrayOf(heap, 1, parts);
    assert parts[1..] == ["[true, 2]"];
    var body := "1" + ", " + "[true, 2]";
    assert Joined(", ", parts) == body;
    NestedText(body);
  }

  /** The characters `vm_puts` writes: everything before the terminating NUL. */
  function UntilNul(s: string): (r: string)
    ensures r <= s && '\0' !in r
    ensures |r| < |s| ==> s[|r|] == '\0'
  {
    if s == [] || s[0] == '\0' then [] else [s[0]] + UntilNul(s[1..])
  }
}
