/** What printf's formats mean, directive by directive. */
module Formats {
  import opened Numbers
  import opened Printf

  /** How many values a format takes. */
  function Arity(format: string): nat {
    if |format| < 1 then 0
    else if format[0] != '%' then Arity(format[1..])
    else if |format| < 2 then 0
    else (if TakesArgument(format[1]) then 1 else 0) + Arity(format[2..])
  }

  lemma PlainStep(c: char, h: string, x: seq<Int32>)
    requires c != '%' && c != NUL && Supported(h, x)
    ensures Supported([c] + h, x) && Render([c] + h, x) == [c] + Render(h, x) && Arity([c] + h) == Arity(h)
  {
    assert ([c] + h)[1..] == h;
  }

  lemma DirectiveStep(c: char, h: string, v: seq<Int32>, x: seq<Int32>)
    requires c != NUL && Supported(h, x)
    requires if TakesArgument(c) then |v| == 1 && (c == 'c' ==> CharOf(v[0]) != NUL) else v == []
    ensures Supported(['%', c] + h, v + x) && Arity(['%', c] + h) == |v| + Arity(h)
    ensures Render(['%', c] + h, v + x) == (if v == [] then "" else Shown(c, v[0])) + Render(h, x)
  {
    assert (['%', c] + h)[2..] == h && (['%', c] + h)[1] == c;
    assert if v == [] then v + x == x else (v + x)[1..] == x && (v + x)[0] == v[0];
  }

  ghost predicate Joins(f: string, g: string, a: seq<Int32>, b: seq<Int32>) {
    && Supported(f, a) && Supported(g, b)
    && Supported(f + g, a + b) && Render(f + g, a + b) == Render(f, a) + Render(g, b)
  }

  lemma Associative<T>(p: seq<T>, h: seq<T>, g: seq<T>)
    ensures p + h + g == p + (h + g)
  {
  }

  /** A first piece p, with its values v and its text, put before parts that join. */
  lemma Regroup(p: string, h: string, g: string, v: seq<Int32>, x: seq<Int32>, b: seq<Int32>, text: string)
    requires Joins(h, g, x, b) && Supported(p + h, v + x) && Supported(p + (h + g), v + (x + b))
    requires Render(p + h, v + x) == text + Render(h, x)
    requires Render(p + (h + g), v + (x + b)) == text + Render(h + g, x + b)
    ensures Joins(p + h, g, v + x, b)
  {
    Associative(p, h, g);
    Associative(v, x, b);
    Associative(text, Render(h, x), Render(g, b));
  }

  lemma JoinPlain(c: char, h: string, g: string, a: seq<Int32>, b: seq<Int32>)
    requires c != '%' && c != NUL && Joins(h, g, a, b)
    ensures Joins([c] + h, g, a, b)
  {
    PlainStep(c, h, a);
    PlainStep(c, h + g, a + b);
    assert [] + a == a && [] + (a + b) == a + b;
    Regroup([c], h, g, [], a, b, [c]);
  }

  lemma JoinDirective(c: char, h: string, g: string, v: seq<Int32>, x: seq<Int32>, b: seq<Int32>)
    requires c != NUL && Joins(h, g, x, b)
    requires if TakesArgument(c) then |v| == 1 && (c == 'c' ==> CharOf(v[0]) != NUL) else v == []
    ensures Joins(['%', c] + h, g, v + x, b)
  {
    DirectiveStep(c, h, v, x);
    DirectiveStep(c, h + g, v, x + b);
    Regroup(['%', c], h, g, v, x, b, if v == [] then "" else Shown(c, v[0]));
  }

  lemma {:induction false} JoinsAll(f: string, g: string, a: seq<Int32>, b: seq<Int32>)
    requires Supported(f, a) && Supported(g, b) && |a| == Arity(f)
    ensures Joins(f, g, a, b)
    decreases |f|
  {
    if f == [] {
      assert f + g == g && a + b == b;
    } else if f[0] != '%' {
      JoinsAll(f[1..], g, a, b);
      JoinPlain(f[0], f[1..], g, a, b);
      assert f == [f[0]] + f[1..];
    } else {
      var v, x := if TakesArgument(f[1]) then a[..1] else [], if TakesArgument(f[1]) then a[1..] else a;
      JoinsAll(f[2..], g, x, b);
      JoinDirective(f[1], f[2..], g, v, x, b);
      assert f == ['%', f[1]] + f[2..] && a == v + x;
    }
  }

  /** The text of a format in two parts, where the first takes just its own arguments, is the texts of the parts. */
  lemma RenderJoin(f: string, g: string, a: seq<Int32>, b: seq<Int32>)
    requires Supported(f, a) && Supported(g, b) && |a| == Arity(f)
    ensures Supported(f + g, a + b) && Render(f + g, a + b) == Render(f, a) + Render(g, b)
  {
    JoinsAll(f, g, a, b);
  }

  /** Text without a `%` is printed as it is. */
  lemma {:induction false} RenderPlain(s: string)
    requires '%' !in s && NUL !in s
    ensures Supported(s, []) && Arity(s) == 0 && Render(s, []) == s
  {
    if s != [] {
      assert s[0] in s && forall c :: c in s[1..] ==> c in s;
      RenderPlain(s[1..]);
    }
  }

  lemma OneDirective(c: char, value: Int32)
    requires c == 'd' || c == 'i' || c == 'x' || c == 'c'
    requires c == 'c' ==> value % 256 != 0
    ensures Supported(['%', c], [value]) && Arity(['%', c]) == 1
    ensures Render(['%', c], [value]) == Shown(c, value)
  {
    var f := ['%', c];
    assert f[2..] == "" && [value][1..] == [];
    assert Supported("", []) && Render("", []) == "" && Arity("") == 0;
    if c == 'c' { LowByte(value); }
  }

  lemma LowByte(value: Int32)
    requires value % 256 != 0
    ensures CharOf(value) != NUL
  {
    assert (value % 256) as char as int == value % 256;
  }

  /** `%x` prints the value's 32-bit pattern as a hexadecimal numeral: digits and capitals, no leading zero. */
  lemma HexadecimalReads(value: Int32)
    ensures Supported("%x", [value])
    ensures var t := Render("%x", [value]); Numeral(t, 16) && Parse(t, 16) == value % 0x1_0000_0000
  {
    OneDirective('x', value);
    TextNumeral(value, 16);
    ItoaReadsBack(value, 16);
    assert ['%', 'x'] == "%x";
  }

  /** `%d` and `%i` print the value as a decimal numeral, after a minus sign if it is negative. */
  lemma DecimalReads(value: Int32, format: string)
    requires format == "%d" || format == "%i"
    ensures Supported(format, [value])
    ensures var t := Render(format, [value]);
            if value < 0 then t != [] && t[0] == '-' && Numeral(t[1..], 10) && Parse(t[1..], 10) == -(value as int)
            else Numeral(t, 10) && Parse(t, 10) == value
  {
    OneDirective(format[1], value);
    TextNumeral(value, 10);
    ItoaReadsBack(value, 10);
    assert ['%', format[1]] == format;
  }

  /** `%c` prints the character with the value's low byte. */
  lemma CharacterIs(value: Int32)
    requires value % 256 != 0
    ensures Supported("%c", [value]) && Render("%c", [value]) == [(value % 256) as char]
  {
    OneDirective('c', value);
    assert ['%', 'c'] == "%c";
  }

  /** Any other character behind a `%` prints nothing and takes no value. */
  lemma UnknownNothing(c: char)
    requires c != NUL && c != 'd' && c != 'i' && c != 'x' && c != 'c'
    ensures Supported(['%', c], []) && Render(['%', c], []) == ""
  {
    assert ['%', c][2..] == "";
  }
}
