/** printf: formatting through a 64-byte buffer that is emitted in chunks. */
module Printf {
  import opened Numbers

  const BUF_LEN: int := 64

  /** The format is a C string that does not end in `%`; `args` holds at least the values its directives
      take, and no NUL for a `%c`. */
  predicate Supported(format: string, args: seq<Int32>) {
    if format == [] then true
    else if format[0] == NUL then false
    else if format[0] != '%' then Supported(format[1..], args)
    else
      && 2 <= |format| && format[1] != NUL
      && (TakesArgument(format[1]) ==> args != [] && (format[1] == 'c' ==> CharOf(args[0]) != NUL))
      && Supported(format[2..], if TakesArgument(format[1]) then args[1..] else args)
  }

  predicate TakesArgument(c: char) {
    c == 'd' || c == 'i' || c == 'x' || c == 'c'
  }

  /** The cast to char. */
  function CharOf(value: Int32): char {
    (value as int % 256) as char
  }

  /** What a directive that takes an argument prints. */
  function Shown(c: char, value: Int32): (r: string)
    requires TakesArgument(c)
  {
    if c == 'c' then [CharOf(value)] else Text(value, if c == 'x' then 16 else 10)
  }

  /** Unbuffered formatting. An unknown directive prints nothing. */
  function Render(format: string, args: seq<Int32>): (r: string)
    requires Supported(format, args)
    ensures NUL !in r
  {
    if format == [] then []
    else if format[0] != '%' then [format[0]] + Render(format[1..], args)
    else if TakesArgument(format[1]) then Shown(format[1], args[0]) + Render(format[2..], args[1..])
    else Render(format[2..], args)
  }

  function Flatten(chunks: seq<string>): string {
    if chunks == [] then [] else Flatten(chunks[..|chunks| - 1]) + chunks[|chunks| - 1]
  }

  class Printer {
    const buf: array<char>
    var bc: int
    var out: seq<string> // what sc_print_string has been given

    constructor ()
      ensures fresh(buf) && buf.Length == BUF_LEN && bc == 0 && out == []
    {
      buf, bc, out := new char[BUF_LEN](_ => NUL), 0, [];
    }

    /** The text so far, emitted or still in the buffer. */
    ghost function Written(): string
      requires 0 <= bc <= buf.Length
      reads this, buf
    {
      Flatten(out) + buf[..bc]
    }

    ghost predicate Valid()
      reads this, buf
    {
      buf.Length == BUF_LEN && 0 <= bc < BUF_LEN && NUL !in buf[..bc] && forall k :: 0 <= k < |out| ==> NUL !in out[k]
    }

    /** Terminates the buffer, emits it, and starts over. */
    method Flush()
      requires Valid()
      modifies this`bc, this`out, buf
      ensures Valid() && bc == 0 && Written() == old(Written()) && out == old(out) + [old(buf[..bc])]
    {
      buf[bc] := NUL;
      out := out + [buf[..bc]];
      bc := 0;
      assert out[..|out| - 1] == old(out);
      assert buf[..0] == [];
    }

    /** A number: flush first unless `room` bytes are left, then itoa into the buffer and find its end. */
    method PutNumber(value: Int32, base: int, room: int)
      requires Valid() && IsBase(base) && |Text(value, base)| < room <= 12
      modifies this`bc, this`out, buf
      ensures Valid() && Written() == old(Written()) + Text(value, base)
      ensures bc == NextIndex(old(bc), Number(|Text(value, base)|, room))
    {
      if BUF_LEN - bc - 1 < room { Flush(); }
      PutText(value, base);
    }

    /** itoa into the buffer, where there is room for it. */
    method PutText(value: Int32, base: int)
      requires Valid() && IsBase(base) && bc + |Text(value, base)| < BUF_LEN - 1
      modifies this`bc, buf
      ensures Valid() && bc == old(bc) + |Text(value, base)| && Written() == old(Written()) + Text(value, base)
    {
      ghost var was, start, text := buf[..], bc, Text(value, base);
      Itoa(value, buf, bc, base);
      SkipText(text);
      forall m | 0 <= m < bc ensures buf[m] == (was[..start] + text)[m] {}
      assert buf[..bc] == was[..start] + text;
      assert Flatten(out) + (was[..start] + text) == (Flatten(out) + was[..start]) + text;
    }

    /** Moves the index to the NUL of the text just written. */
    method SkipText(ghost text: string)
      requires TextAt(buf, bc, text) && text != []
      modifies this`bc
      ensures bc == old(bc) + |text|
    {
      ghost var start := bc;
      bc := bc + 1;
      while buf[bc] != NUL
        invariant start < bc <= start + |text|
        modifies this`bc
        decreases start + |text| - bc
      {
        bc := bc + 1;
      }
    }

    /** An ordinary character; a full buffer is emitted. */
    method PutChar(c: char)
      requires Valid() && bc < BUF_LEN - 1 && c != NUL
      modifies this`bc, this`out, buf
      ensures Valid() && Written() == old(Written()) + [c] && bc == NextIndex(old(bc), Ordinary)
    {
      buf[bc] := c;
      bc := bc + 1;
      assert buf[..bc] == old(buf[..bc]) + [c];
      if bc == BUF_LEN - 1 { Flush(); }
    }

    /** `%c`: the buffer is emitted first if it is full, and not afterwards. */
    method PutCharacter(c: char)
      requires Valid() && c != NUL
      modifies this`bc, this`out, buf
      ensures Valid() && Written() == old(Written()) + [c] && bc == NextIndex(old(bc), Character)
    {
      if BUF_LEN - bc - 1 < 1 { Flush(); }
      ghost var was, start := buf[..], bc;
      buf[bc] := c;
      bc := bc + 1;
      assert buf[..bc] == was[..start] + [c];
      assert Flatten(out) + (was[..start] + [c]) == (Flatten(out) + was[..start]) + [c];
    }
  }

  lemma Joined(done: string, written: string, rest: string, all: string)
    requires done <= written && all == written[|done|..] + rest
    ensures written + rest == done + all
  {
  }

  /** The directives that take an argument. */
  method PrintDirective(p: Printer, c: char, value: Int32)
    requires p.Valid() && TakesArgument(c) && (c == 'c' ==> CharOf(value) != NUL)
    modifies p`bc, p`out, p.buf
    ensures p.Valid() && p.bc == NextIndex(old(p.bc), ItemOf(c, value))
    ensures p.Written() == old(p.Written()) + Shown(c, value)
  {
    ItoaFits(value);
    if c == 'c' { p.PutCharacter(CharOf(value)); }
    else if c == 'x' { p.PutNumber(value, 16, 10); }
    else { p.PutNumber(value, 10, 12); }
  }

  /** printf. It stops with `overrun` when an ordinary character comes at the last cell of the buffer, from
      where the index would pass the buffer's end; otherwise the chunks it emits, joined, are the unbuffered
      text. */
  method Print(format: string, args: seq<Int32>) returns (chunks: seq<string>, overrun: bool)
    requires Supported(format, args)
    ensures overrun <==> Overruns(format, args)
    ensures !overrun ==> Flatten(chunks) == Render(format, args)
    ensures !overrun ==> forall k :: 0 <= k < |chunks| ==> NUL !in chunks[k]
  {
    var p := new Printer();
    var i := 0;
    var rest := args;
    ghost var n: nat := 0;
    while i < |format|
      invariant 0 <= i <= |format| && fresh(p) && fresh(p.buf) && Midway(p, format, args, i, rest, n)
    {
      if format[i] != '%' && p.bc == BUF_LEN - 1 {
        assert LastCell(Items(format, args), n);
        return [], true;
      }
      i, rest, n := PrintTurn(p, format, args, i, rest, n);
    }
    if p.bc > 0 { p.Flush(); }
    chunks, overrun := p.out, false;
  }

  /** Position i of the format has been reached, with `rest` of the arguments left: what has been written and
      what is still to be written make up the text, and the index is the one after the first n items. */
  ghost predicate Midway(p: Printer, format: string, args: seq<Int32>, i: nat, rest: seq<Int32>, n: nat)
    requires Supported(format, args)
    reads p, p.buf
  {
    && p.Valid() && i <= |format| && Supported(format[i..], rest)
    && p.Written() + Render(format[i..], rest) == Render(format, args)
    && IndexAt(p.bc, Items(format, args), n, Items(format[i..], rest))
  }

  /** The index is the one after the first n items, none of which has been an overrun; `left` are the others. */
  ghost predicate IndexAt(bc: int, items: seq<Item>, n: nat, left: seq<Item>) {
    && n <= |items| && items[n..] == left && bc == Index(items, n)
    && forall k :: 0 <= k < n ==> !LastCell(items, k)
  }

  /** One turn of printf's loop that does not overrun. */
  method PrintTurn(p: Printer, format: string, args: seq<Int32>, i: nat, rest: seq<Int32>, ghost n: nat)
    returns (i': nat, rest': seq<Int32>, ghost n': nat)
    requires Supported(format, args) && i < |format| && Midway(p, format, args, i, rest, n)
    requires format[i] != '%' ==> p.bc < BUF_LEN - 1
    modifies p`bc, p`out, p.buf
    ensures i < i' <= |format| && Midway(p, format, args, i', rest', n')
  {
    ghost var f, before, bc := format[i..], p.Written(), p.bc;
    i', rest' := PrintOne(p, format, i, rest);
    IndexTurn(bc, p.bc, Items(format, args), n, FirstItem(f, rest), Items(format[i'..], rest'));
    n' := n + |FirstItem(f, rest)|;
    Joined(before, p.Written(), Render(format[i'..], rest'), Render(f, rest));
  }

  /** What a turn prints. */
  method PrintOne(p: Printer, format: string, i: nat, args: seq<Int32>) returns (i': nat, args': seq<Int32>)
    requires i < |format| && p.Valid() && Supported(format[i..], args)
    requires format[i] != '%' ==> p.bc < BUF_LEN - 1
    modifies p`bc, p`out, p.buf
    ensures i < i' <= |format| && p.Valid() && Supported(format[i'..], args')
    ensures var more := FirstItem(format[i..], args);
            p.bc == if more == [] then old(p.bc) else NextIndex(old(p.bc), more[0])
    ensures old(p.Written()) <= p.Written()
    ensures Render(format[i..], args) == p.Written()[|old(p.Written())|..] + Render(format[i'..], args')
    ensures Items(format[i..], args) == FirstItem(format[i..], args) + Items(format[i'..], args')
  {
    ghost var f := format[i..];
    i', args' := i, args;
    if format[i'] == '%' {
      i' := i' + 1;
      assert f[1] == format[i'] && f[2..] == format[i' + 1..];
      if TakesArgument(format[i']) {
        PrintDirective(p, format[i'], args'[0]);
        args' := args'[1..];
      }
    } else {
      p.PutChar(format[i']);
      assert f[1..] == format[i' + 1..];
    }
    i' := i' + 1;
  }

  // ----- the buffer index -----

  /** What printf comes upon in the format: an ordinary character, `%c`, or a number directive with the
      length of its text and the room it asks for. */
  datatype Item = Ordinary | Character | Number(length: nat, room: nat)

  function ItemOf(c: char, value: Int32): Item
    requires TakesArgument(c)
  {
    if c == 'c' then Character
    else if c == 'x' then Number(|Text(value, 16)|, 10)
    else Number(|Text(value, 10)|, 12)
  }

  /** The item the format starts with, if that prints anything. */
  function FirstItem(format: string, args: seq<Int32>): seq<Item>
    requires Supported(format, args) && format != []
  {
    if format[0] != '%' then [Ordinary] else if TakesArgument(format[1]) then [ItemOf(format[1], args[0])] else []
  }

  function Items(format: string, args: seq<Int32>): seq<Item>
    requires Supported(format, args)
  {
    if format == [] then []
    else if format[0] != '%' then [Ordinary] + Items(format[1..], args)
    else if TakesArgument(format[1]) then [ItemOf(format[1], args[0])] + Items(format[2..], args[1..])
    else Items(format[2..], args)
  }

  /** The buffer index after an item, in 32-bit arithmetic. */
  function NextIndex(bc: nat, item: Item): nat {
    match item
    case Ordinary => if bc + 1 == BUF_LEN - 1 then 0 else bc + 1
    case Character => if Room(bc) < 1 then 1 else bc + 1
    case Number(length, room) => if Room(bc) < room then length else bc + length
  }

  /** PRINTF_BUF_LEN - bc - 1, which wraps around once the index has passed the end. */
  function Room(bc: nat): int {
    if bc < BUF_LEN then BUF_LEN - bc - 1 else WRAP + BUF_LEN - bc - 1
  }

  /** The buffer index after the first n items. */
  function Index(items: seq<Item>, n: nat): nat
    requires n <= |items|
  {
    if n == 0 then 0 else NextIndex(Index(items, n - 1), items[n - 1])
  }

  /** An ordinary character comes while the index is at the last cell. */
  ghost predicate LastCell(items: seq<Item>, k: int)
    requires 0 <= k < |items|
  {
    items[k].Ordinary? && Index(items, k) == BUF_LEN - 1
  }

  /** The index passes the buffer's end. */
  ghost predicate Overruns(format: string, args: seq<Int32>)
    requires Supported(format, args)
  {
    exists k :: 0 <= k < |Items(format, args)| && LastCell(Items(format, args), k)
  }

  lemma IndexTurn(bc: int, bc': int, items: seq<Item>, n: nat, more: seq<Item>, rest: seq<Item>)
    requires |more| <= 1 && IndexAt(bc, items, n, more + rest) && 0 <= bc
    requires more != [] && more[0].Ordinary? ==> bc < BUF_LEN - 1
    requires bc' == if more == [] then bc else NextIndex(bc, more[0])
    ensures IndexAt(bc', items, n + |more|, rest)
  {
    assert items[n..][|more|..] == rest;
    assert more != [] ==> items[n..][0] == more[0];
  }

  // ----- when the index passes the buffer's end -----

  ghost predicate Sound(item: Item) {
    item.Number? ==> item.length < item.room <= 12
  }

  lemma {:induction false} ItemsSound(format: string, args: seq<Int32>)
    requires Supported(format, args)
    ensures forall k :: 0 <= k < |Items(format, args)| ==> Sound(Items(format, args)[k])
  {
    if format != [] {
      if format[0] != '%' { ItemsSound(format[1..], args); }
      else if TakesArgument(format[1]) {
        ItoaFits(args[0]);
        ItemsSound(format[2..], args[1..]);
      } else { ItemsSound(format[2..], args); }
    }
  }

  /** A `%c` fills the last cell but one, and an ordinary character is the next thing printed. */
  ghost predicate Squeezed(items: seq<Item>, k: int)
    requires 0 <= k < |items|
  {
    items[k].Character? && Index(items, k) == BUF_LEN - 2 && k + 1 < |items| && items[k + 1].Ordinary?
  }

  /** Only a `%c` in the last cell but one takes the index to the last cell. */
  lemma ToLastCell(bc: nat, item: Item)
    requires bc < BUF_LEN && Sound(item)
    ensures NextIndex(bc, item) == BUF_LEN - 1 <==> item.Character? && bc == BUF_LEN - 2
    ensures NextIndex(bc, item) < BUF_LEN || (item.Ordinary? && bc == BUF_LEN - 1)
  {
  }

  /** Up to the first overrun the index is inside the buffer. */
  lemma {:induction false} StaysWithin(items: seq<Item>, k: nat)
    requires k <= |items| && forall l :: 0 <= l < |items| ==> Sound(items[l])
    requires forall l :: 0 <= l < k ==> !LastCell(items, l)
    ensures Index(items, k) < BUF_LEN
  {
    if k > 0 {
      StaysWithin(items, k - 1);
      assert Sound(items[k - 1]) && !LastCell(items, k - 1);
      ToLastCell(Index(items, k - 1), items[k - 1]);
    }
  }

  /** The first overrun, if there is one, follows a `%c` that fills the last cell but one. */
  lemma {:induction false} FirstOverrun(items: seq<Item>, k: nat)
    requires k < |items| && LastCell(items, k) && forall l :: 0 <= l < |items| ==> Sound(items[l])
    ensures exists l :: 0 <= l < |items| && Squeezed(items, l)
  {
    if l :| 0 <= l < k && LastCell(items, l) {
      FirstOverrun(items, l);
    } else {
      StaysWithin(items, k - 1);
      ToLastCell(Index(items, k - 1), items[k - 1]);
      assert Squeezed(items, k - 1);
    }
  }

  /** printf's index passes the buffer's end exactly when a `%c` fills the last cell but one and the next thing
      printed is an ordinary character. */
  lemma OverrunsExactly(format: string, args: seq<Int32>)
    requires Supported(format, args)
    ensures Overruns(format, args) <==>
            exists k :: 0 <= k < |Items(format, args)| && Squeezed(Items(format, args), k)
  {
    var items := Items(format, args);
    ItemsSound(format, args);
    if k :| 0 <= k < |items| && LastCell(items, k) { FirstOverrun(items, k); }
    if k :| 0 <= k < |items| && Squeezed(items, k) {
      assert LastCell(items, k + 1);
    }
  }

  predicate HasCharacter(format: string) {
    exists k :: 0 <= k < |format| - 1 && format[k] == '%' && format[k + 1] == 'c'
  }

  lemma {:induction false} NoCharacterItem(format: string, args: seq<Int32>)
    requires Supported(format, args) && !HasCharacter(format)
    ensures forall k :: 0 <= k < |Items(format, args)| ==> !Items(format, args)[k].Character?
  {
    if format != [] {
      if format[0] != '%' {
        Suffix(format, 1);
        NoCharacterItem(format[1..], args);
      } else {
        Suffix(format, 2);
        NoCharacterItem(format[2..], if TakesArgument(format[1]) then args[1..] else args);
      }
    }
  }

  lemma Suffix(format: string, n: nat)
    requires n <= |format| && !HasCharacter(format)
    ensures !HasCharacter(format[n..])
  {
    forall k | 0 <= k < |format[n..]| - 1 ensures !(format[n..][k] == '%' && format[n..][k + 1] == 'c') {
      assert !(format[n + k] == '%' && format[n + k + 1] == 'c');
    }
  }

  /** A format without `%c` never overruns. */
  lemma NoCharacterNoOverrun(format: string, args: seq<Int32>)
    requires Supported(format, args) && !HasCharacter(format)
    ensures !Overruns(format, args)
  {
    OverrunsExactly(format, args);
    NoCharacterItem(format, args);
  }

  /** 62 ordinary characters, a `%c` and one more ordinary character. */
  const OVERRUN: string := seq(62, _ => 'a') + "%c!"

  lemma {:induction false} OrdinaryItems(a: string, f: string, args: seq<Int32>)
    requires Supported(f, args) && forall k :: 0 <= k < |a| ==> a[k] != '%' && a[k] != NUL
    ensures Supported(a + f, args) && Items(a + f, args) == seq(|a|, _ => Ordinary) + Items(f, args)
  {
    if a == [] {
      assert a + f == f;
    } else {
      OrdinaryItems(a[1..], f, args);
      assert (a + f)[1..] == a[1..] + f;
    }
  }

  lemma {:induction false} OrdinaryRun(items: seq<Item>, n: nat)
    requires n < BUF_LEN - 1 && n <= |items| && forall k :: 0 <= k < n ==> items[k] == Ordinary
    ensures Index(items, n) == n
  {
    if n > 0 { OrdinaryRun(items, n - 1); }
  }

  /** That format overruns, whatever character it is given. */
  lemma CharacterOverrun(value: Int32)
    requires CharOf(value) != NUL
    ensures Supported(OVERRUN, [value]) && Overruns(OVERRUN, [value])
  {
    OverrunTail(value);
    OrdinaryItems(seq(62, _ => 'a'), "%c!", [value]);
    var items := Items(OVERRUN, [value]);
    assert items[62] == Character && items[63] == Ordinary;
    OrdinaryRun(items, 62);
    assert Squeezed(items, 62);
    OverrunsExactly(OVERRUN, [value]);
  }

  lemma OverrunTail(value: Int32)
    requires CharOf(value) != NUL
    ensures Supported("%c!", [value]) && Items("%c!", [value]) == [Character, Ordinary]
  {
    assert "%c!"[2..] == "!" && "!"[1..] == "" && [value][1..] == [];
    assert Items("!", []) == [Ordinary];
  }
}
