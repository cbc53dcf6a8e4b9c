/**
  The path cursor of the attribute iterator: a stack of name segments and its
  rendering as a `/`-separated string (`GetCurrentPath`), together with the
  decimal rendering of vector and map indices (`oss << index`).
*/
module Paths {
  import opened Wrappers

  /** `GetCurrentPath()`: every segment preceded by `/`; the empty stack renders as "". */
  function Render(stack: seq<string>): string
  {
    if stack == [] then "" else Render(stack[..|stack| - 1]) + "/" + stack[|stack| - 1]
  }

  /** `GetCurrentPath(attr)`: the stack, then `/attr` only when `attr` is not empty. */
  function CurrentPath(stack: seq<string>, attr: string): (r: string)
    ensures attr != "" ==> r == Render(stack + [attr])
    ensures attr == "" ==> r == Render(stack)
  {
    assert (stack + [attr])[..|stack|] == stack;
    if attr != "" then Render(stack) + "/" + attr else Render(stack)
  }

  /** Rendering distributes over stack concatenation. */
  lemma {:induction false} RenderConcat(a: seq<string>, b: seq<string>)
    ensures Render(a + b) == Render(a) + Render(b)
    decreases |b|
  {
    if b == [] {
      assert a + b == a;
    } else {
      var b' := b[..|b| - 1];
      assert (a + b)[..|a + b| - 1] == a + b';
      RenderConcat(a, b');
    }
  }

  /** Rendering a stack with a first segment `x`: `/x` followed by the rest. */
  lemma RenderCons(x: string, rest: seq<string>)
    ensures Render([x] + rest) == "/" + x + Render(rest)
  {
    RenderConcat([x], rest);
    assert [x][..0] == [];
  }

  /** A longer stack renders to a longer string: the rendered prefix is kept. */
  lemma RenderPrefix(a: seq<string>, b: seq<string>)
    requires a <= b
    ensures Render(a) <= Render(b)
  {
    assert b == a + b[|a|..];
    RenderConcat(a, b[|a|..]);
  }

  /** Segments that can be recovered after rendering: none contains the separator. */
  ghost predicate SlashFree(stack: seq<string>)
  {
    forall i :: 0 <= i < |stack| ==> '/' !in stack[i]
  }

  /** Index of the first `/` in `s`, or `|s|` when there is none. */
  function FirstSlash(s: string): (k: nat)
    ensures k <= |s|
    ensures '/' !in s[..k]
    ensures k < |s| ==> s[k] == '/'
  {
    if s == [] then 0
    else if s[0] == '/' then 0
    else
      var k := 1 + FirstSlash(s[1..]);
      assert s[..k] == [s[0]] + s[1..][..k - 1];
      k
  }

  /** The fields of `s` between separators. */
  function Fields(s: string): (r: seq<string>)
    ensures |r| >= 1
    decreases |s|
  {
    var k := FirstSlash(s);
    if k == |s| then [s] else [s[..k]] + Fields(s[k + 1..])
  }

  /** Reads a rendered path back into its segments; None when it does not start with `/`. */
  function Parse(p: string): Option<seq<string>>
  {
    if p == "" then Some([])
    else if p[0] != '/' then None
    else Some(Fields(p[1..]))
  }

  lemma FirstSlashOf(x: string, tail: string)
    requires '/' !in x
    ensures tail == "" ==> FirstSlash(x + tail) == |x|
    ensures tail != "" && tail[0] == '/' ==> FirstSlash(x + tail) == |x|
  {
    var k := FirstSlash(x + tail);
    if k > |x| {
      assert (x + tail)[..k][|x|] == tail[0];
      if tail[0] == '/' { assert false; }
    }
  }

  /** Fields of a slash-free first segment followed by a rendered stack. */
  lemma {:induction false} FieldsRender(x: string, rest: seq<string>)
    requires '/' !in x
    requires SlashFree(rest)
    ensures Fields(x + Render(rest)) == [x] + rest
    decreases |rest|
  {
    if rest == [] {
      assert x + Render(rest) == x;
      FirstSlashOf(x, "");
    } else {
      var y := rest[0];
      var rest' := rest[1..];
      assert rest == [y] + rest';
      RenderCons(y, rest');
      var tail := Render(rest);
      assert tail == "/" + y + Render(rest');
      FirstSlashOf(x, tail);
      var s := x + tail;
      assert s[..|x|] == x;
      assert s[|x| + 1..] == y + Render(rest');
      assert forall i :: 0 <= i < |rest'| ==> rest'[i] == rest[i + 1];
      FieldsRender(y, rest');
    }
  }

  /** Round trip: rendering a slash-free stack and parsing it back gives the stack. */
  lemma ParseRender(stack: seq<string>)
    requires SlashFree(stack)
    ensures Parse(Render(stack)) == Some(stack)
  {
    if stack != [] {
      var x, rest := stack[0], stack[1..];
      assert stack == [x] + rest;
      RenderCons(x, rest);
      var p := Render(stack);
      assert p == "/" + x + Render(rest);
      assert p[1..] == x + Render(rest);
      assert SlashFree(rest) by {
        forall i | 0 <= i < |rest| ensures '/' !in rest[i] {
          assert rest[i] == stack[i + 1];
        }
      }
      FieldsRender(x, rest);
    }
  }

  /** Distinct slash-free stacks render to distinct paths. */
  lemma RenderInjective(a: seq<string>, b: seq<string>)
    requires SlashFree(a) && SlashFree(b)
    requires Render(a) == Render(b)
    ensures a == b
  {
    ParseRender(a);
    ParseRender(b);
  }

  // ---------------------------------------------------------------- decimals

  function DigitChar(d: nat): (c: char)
    requires d < 10
  {
    "0123456789"[d]
  }

  predicate IsDigit(c: char)
  {
    '0' <= c <= '9'
  }

  /** `oss << index` for an unsigned index: most significant digit first, no leading zeros. */
  function Decimal(n: nat): (r: string)
    ensures r != []
    ensures forall i :: 0 <= i < |r| ==> IsDigit(r[i])
    ensures |r| > 1 ==> r[0] != '0'
  {
    if n < 10 then [DigitChar(n)] else Decimal(n / 10) + [DigitChar(n % 10)]
  }

  function DigitValue(c: char): nat
    requires IsDigit(c)
  {
    (c as int - '0' as int) as nat
  }

  /** Reads a string of digits as a decimal number. */
  function ParseDecimal(s: string): nat
    requires forall i :: 0 <= i < |s| ==> IsDigit(s[i])
  {
    if s == [] then 0 else 10 * ParseDecimal(s[..|s| - 1]) + DigitValue(s[|s| - 1])
  }

  /** Round trip: the rendered index reads back as the same number. */
  lemma {:induction false} ParseDecimalOfDecimal(n: nat)
    ensures ParseDecimal(Decimal(n)) == n
  {
    if n >= 10 {
      var r := Decimal(n);
      assert r[..|r| - 1] == Decimal(n / 10);
      ParseDecimalOfDecimal(n / 10);
    }
  }

  /** Index segments never contain the path separator. */
  lemma DecimalSlashFree(n: nat)
    ensures '/' !in Decimal(n)
  {
  }
}
