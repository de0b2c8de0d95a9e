/**
 The terminal line discipline (api/src/terminal/ldisc.rs, api/src/terminal/termios.rs).

 `Fold` is the reference: one pass over everything typed, with no buffers and no limits. The
 `InputReader` works in chunks of at most 80 bytes, feeds a ring of 80 bytes that somebody else
 empties at their own pace, and may be interrupted with half a line delivered. It is proved to push
 exactly what the fold emits.
 */
module LineDiscipline {

  type Byte = x: int | 0 <= x < 256

  const CR: Byte := 13
  const NL: Byte := 10
  const SPACE: Byte := 32
  const BUF_SIZE: nat := 80

  // ------------------------------------------------------------------------------------- termios

  const IGNCR: bv32 := 0x80
  const ICRNL: bv32 := 0x100
  const ISIG: bv32 := 0x1
  const ICANON: bv32 := 0x2
  const ECHO: bv32 := 0x8
  const ECHOK: bv32 := 0x20
  const ECHOCTL: bv32 := 0x200
  const IEXTEN: bv32 := 0x8000

  const VINTR := 0
  const VQUIT := 1
  const VERASE := 2
  const VKILL := 3
  const VEOF := 4
  const VEOL := 11
  const VEOL2 := 16
  const NCC := 19

  datatype Signal = SIGINT | SIGQUIT

  datatype Option<T> = None | Some(value: T)

  datatype Raw = Raw(iflag: bv32, lflag: bv32, cc: seq<Byte>)

  type Termios = t: Raw | |t.cc| == NCC witness Raw(0, 0, seq(NCC, _ => 0))

  predicate HasIflag(t: Termios, flag: bv32) { t.iflag & flag != 0 }

  predicate HasLflag(t: Termios, flag: bv32) { t.lflag & flag != 0 }

  predicate Canonical(t: Termios) { HasLflag(t, ICANON) }

  predicate IsEol(t: Termios, ch: Byte)
  {
    ch == NL || ch == t.cc[VEOL] || (HasLflag(t, IEXTEN) && ch == t.cc[VEOL2])
  }

  function SignalFor(t: Termios, ch: Byte): Option<Signal>
  {
    if ch == t.cc[VINTR] then Some(SIGINT) else if ch == t.cc[VQUIT] then Some(SIGQUIT) else None
  }

  predicate Graphic(ch: Byte) { 0x21 <= ch <= 0x7e }

  // --------------------------------------------------------------------------- the one-pass fold

  /** What happens at the input end: a byte typed under the settings then in force, or a request to
      forget the line being edited. */
  datatype Item = Typed(term: Termios, ch: Byte) | Drained

  /** The line being edited, and everything handed to the reader so far. */
  datatype Edit = Edit(line: seq<Byte>, out: seq<Byte>)

  /** Carriage-return handling; `None` when the byte is ignored. */
  function Translated(t: Termios, ch: Byte): Option<Byte>
  {
    if ch != CR then Some(ch)
    else if HasIflag(t, IGNCR) then None
    else if HasIflag(t, ICRNL) then Some(NL)
    else Some(ch)
  }

  /** Canonical editing of one translated byte. */
  function Edited(t: Termios, e: Edit, ch: Byte): Edit
  {
    if HasLflag(t, ECHOK) && ch == t.cc[VKILL] then e.(line := [])
    else if ch == t.cc[VERASE] then e.(line := if e.line == [] then [] else e.line[..|e.line| - 1])
    else if IsEol(t, ch) || ch == t.cc[VEOF] then
      var full := if ch != t.cc[VEOF] then e.line + [ch] else e.line;
      Edit([], e.out + full)
    else if Graphic(ch) then e.(line := e.line + [ch])
    else e
  }

  function Step(e: Edit, item: Item): Edit
  {
    match item
    case Drained => e.(line := [])
    case Typed(t, ch) =>
      match Translated(t, ch)
      case None => e
      case Some(c) => if Canonical(t) then Edited(t, e, c) else e.(out := e.out + [c])
  }

  function Fold(items: seq<Item>): Edit
  {
    if items == [] then Edit([], []) else Step(Fold(items[..|items| - 1]), items[|items| - 1])
  }

  lemma FoldSnoc(items: seq<Item>, item: Item)
    ensures Fold(items + [item]) == Step(Fold(items), item)
  {
    assert (items + [item])[..|items|] == items;
  }

  lemma StepGrows(e: Edit, item: Item)
    ensures e.out <= Step(e, item).out
  {
  }

  /** What the fold has emitted is never taken back. */
  lemma {:induction false} FoldOnlyGrows(items: seq<Item>, more: seq<Item>)
    ensures Fold(items).out <= Fold(items + more).out
  {
    if more == [] {
      assert items + more == items;
    } else {
      var n := |more| - 1;
      FoldOnlyGrows(items, more[..n]);
      assert items + more == (items + more[..n]) + [more[n]];
      FoldSnoc(items + more[..n], more[n]);
      StepGrows(Fold(items + more[..n]), more[n]);
    }
  }

  // ------------------------------------------------------------------ what the fold means to users

  /** A byte that is nothing but text to the editor. */
  ghost predicate Plain(t: Termios, ch: Byte) { Graphic(ch) && Ordinary(t, ch) }

  /** A byte without a function in canonical editing. */
  ghost predicate Ordinary(t: Termios, ch: Byte)
  {
    ch != t.cc[VERASE] && ch != t.cc[VEOF] && !IsEol(t, ch) && !(HasLflag(t, ECHOK) && ch == t.cc[VKILL])
  }

  /** A byte without a function becomes part of the line exactly when it is a graphic character. */
  lemma TextKeptIff(t: Termios, items: seq<Item>, ch: Byte)
    requires Canonical(t) && Ordinary(t, ch) && ch != CR
    ensures Fold(items + [Typed(t, ch)]).line == Fold(items).line + [ch] <==> Graphic(ch)
    ensures !Graphic(ch) ==> Fold(items + [Typed(t, ch)]) == Fold(items)
  {
    FoldSnoc(items, Typed(t, ch));
    assert |Fold(items).line + [ch]| == |Fold(items).line| + 1;
  }

  /** Among the bytes without a function there is exactly one that is echoed as itself and then
      forgotten: the space. */
  lemma EchoedAndForgottenIff(t: Termios, items: seq<Item>, ch: Byte)
    requires Canonical(t) && HasLflag(t, ECHO) && Ordinary(t, ch) && ch != CR
    ensures EchoItem(Typed(t, ch)) == [ch] && Fold(items + [Typed(t, ch)]) == Fold(items) <==> ch == SPACE
  {
    FoldSnoc(items, Typed(t, ch));
    assert |Fold(items).line + [ch]| == |Fold(items).line| + 1;
  }

  /** Erasing takes back exactly the last text byte. */
  lemma EraseUndoes(t: Termios, items: seq<Item>, ch: Byte)
    requires Canonical(t) && Plain(t, ch) && t.cc[VERASE] != CR && !(HasLflag(t, ECHOK) && t.cc[VERASE] == t.cc[VKILL])
    ensures Fold(items + [Typed(t, ch), Typed(t, t.cc[VERASE])]) == Fold(items)
  {
    assert items + [Typed(t, ch), Typed(t, t.cc[VERASE])] == (items + [Typed(t, ch)]) + [Typed(t, t.cc[VERASE])];
    FoldSnoc(items, Typed(t, ch));
    FoldSnoc(items + [Typed(t, ch)], Typed(t, t.cc[VERASE]));
    var e := Fold(items);
    assert (e.line + [ch])[..|e.line|] == e.line;
  }

  /** Erasing on an empty line does nothing to what is delivered. */
  lemma EraseOfNothing(t: Termios, items: seq<Item>)
    requires Canonical(t) && t.cc[VERASE] != CR && !(HasLflag(t, ECHOK) && t.cc[VERASE] == t.cc[VKILL])
    ensures Fold(items).line == [] ==> Fold(items + [Typed(t, t.cc[VERASE])]) == Fold(items)
  {
    FoldSnoc(items, Typed(t, t.cc[VERASE]));
  }

  function TypedAll(t: Termios, text: seq<Byte>): seq<Item> { seq(|text|, i requires 0 <= i < |text| => Typed(t, text[i])) }

  lemma {:induction false} TextAccumulates(t: Termios, items: seq<Item>, text: seq<Byte>)
    requires Canonical(t) && forall c :: c in text ==> Plain(t, c)
    ensures Fold(items + TypedAll(t, text)) == Fold(items).(line := Fold(items).line + text)
  {
    if text == [] {
      assert items + TypedAll(t, text) == items;
      assert Fold(items).line + text == Fold(items).line;
    } else {
      var n := |text| - 1;
      var rest := text[..n];
      TextAccumulates(t, items, rest);
      assert items + TypedAll(t, text) == (items + TypedAll(t, rest)) + [Typed(t, text[n])];
      FoldSnoc(items + TypedAll(t, rest), Typed(t, text[n]));
      assert text[n] in text;
      assert Fold(items).line + rest + [text[n]] == Fold(items).line + text;
    }
  }

  /** A line of text is delivered whole, with its newline, when the newline is typed and not before. */
  lemma LineDelivered(t: Termios, text: seq<Byte>)
    requires Canonical(t) && t.cc[VEOF] != NL && t.cc[VERASE] != NL && t.cc[VKILL] != NL
    requires forall c :: c in text ==> Plain(t, c)
    ensures Fold(TypedAll(t, text)).out == []
    ensures Fold(TypedAll(t, text) + [Typed(t, NL)]) == Edit([], text + [NL])
  {
    TextAccumulates(t, [], text);
    assert [] + TypedAll(t, text) == TypedAll(t, text);
    FoldSnoc(TypedAll(t, text), Typed(t, NL));
    assert [] + text == text && [] + (text + [NL]) == text + [NL];
  }

  /** The byte has no meaning to the editor that is looked at before the end of a line. */
  ghost predicate NotEditing(t: Termios, ch: Byte)
  {
    ch != CR && ch != t.cc[VERASE] && !(HasLflag(t, ECHOK) && ch == t.cc[VKILL])
  }

  /** Every terminator ends the line: the newline, the VEOL byte and with IEXTEN the VEOL2 byte are
      delivered with the text, the VEOF byte is not. */
  lemma TerminatorDelivers(t: Termios, text: seq<Byte>, ch: Byte)
    requires Canonical(t) && NotEditing(t, ch) && forall c :: c in text ==> Plain(t, c)
    requires ch == NL || ch == t.cc[VEOL] || (HasLflag(t, IEXTEN) && ch == t.cc[VEOL2]) || ch == t.cc[VEOF]
    ensures Fold(TypedAll(t, text) + [Typed(t, ch)]) == Edit([], if ch == t.cc[VEOF] then text else text + [ch])
  {
    TextAccumulates(t, [], text);
    assert [] + TypedAll(t, text) == TypedAll(t, text);
    FoldSnoc(TypedAll(t, text), Typed(t, ch));
    assert [] + text == text && [] + (text + [ch]) == text + [ch];
  }

  /** And nothing else delivers anything in canonical mode. */
  lemma OnlyTerminatorsDeliver(t: Termios, items: seq<Item>, ch: Byte)
    requires Canonical(t) && ch != NL && ch != t.cc[VEOL] && !(HasLflag(t, IEXTEN) && ch == t.cc[VEOL2]) && ch != t.cc[VEOF]
    ensures ch != CR || !HasIflag(t, ICRNL) ==> Fold(items + [Typed(t, ch)]).out == Fold(items).out
  {
    FoldSnoc(items, Typed(t, ch));
  }

  /** The text without its occurrences of `ch`. */
  function Without(text: seq<Byte>, ch: Byte): seq<Byte>
  {
    if text == [] then []
    else Without(text[..|text| - 1], ch) + if text[|text| - 1] == ch then [] else [text[|text| - 1]]
  }

  function TranslatedAll(t: Termios, text: seq<Byte>): seq<Byte>
  {
    if text == [] then []
    else
      var n := |text| - 1;
      TranslatedAll(t, text[..n]) + match Translated(t, text[n]) case None => [] case Some(c) => [c]
  }

  /** Without canonical mode every byte goes straight through, up to carriage-return handling, and the
      half-edited line is left alone. */
  lemma {:induction false} RawIsTransparent(t: Termios, items: seq<Item>, text: seq<Byte>)
    requires !Canonical(t)
    ensures Fold(items + TypedAll(t, text)) == Edit(Fold(items).line, Fold(items).out + TranslatedAll(t, text))
  {
    if text == [] {
      assert items + TypedAll(t, text) == items;
    } else {
      var n := |text| - 1;
      RawIsTransparent(t, items, text[..n]);
      assert items + TypedAll(t, text) == (items + TypedAll(t, text[..n])) + [Typed(t, text[n])];
      FoldSnoc(items + TypedAll(t, text[..n]), Typed(t, text[n]));
      Regrouped(Fold(items).out, TranslatedAll(t, text[..n]), match Translated(t, text[n]) case None => [] case Some(c) => [c]);
    }
  }

  lemma {:induction false} ReturnsInRaw(t: Termios, text: seq<Byte>)
    ensures HasIflag(t, IGNCR) ==> TranslatedAll(t, text) == Without(text, CR)
    ensures !HasIflag(t, IGNCR) ==> |TranslatedAll(t, text)| == |text|
    ensures !HasIflag(t, IGNCR) ==> forall i :: 0 <= i < |text| ==>
              TranslatedAll(t, text)[i] == if text[i] == CR && HasIflag(t, ICRNL) then NL else text[i]
  {
    if text != [] {
      ReturnsInRaw(t, text[..|text| - 1]);
    }
  }

  /** Raw mode in bytes: everything typed is handed over, in order and at once. A carriage return is left
      out with IGNCR; without it, it becomes a newline with ICRNL and stays as it is otherwise. */
  lemma RawInBytes(t: Termios, items: seq<Item>, text: seq<Byte>, r: seq<Byte>)
    requires !Canonical(t)
    requires if HasIflag(t, IGNCR) then r == Without(text, CR)
             else |r| == |text| && forall i :: 0 <= i < |text| ==> r[i] == if text[i] == CR && HasIflag(t, ICRNL) then NL else text[i]
    ensures Fold(items + TypedAll(t, text)) == Edit(Fold(items).line, Fold(items).out + r)
  {
    RawIsTransparent(t, items, text);
    ReturnsInRaw(t, text);
    assert r == TranslatedAll(t, text);
  }

  lemma Regrouped(a: seq<Byte>, b: seq<Byte>, c: seq<Byte>)
    ensures a + (b + c) == (a + b) + c && (c == [] ==> a + (b + c) == a + b)
  {
  }

  /** Killing the line forgets all the text of the current line. */
  lemma KillForgets(t: Termios, items: seq<Item>, text: seq<Byte>)
    requires Canonical(t) && HasLflag(t, ECHOK) && t.cc[VKILL] != CR && forall c :: c in text ==> Plain(t, c)
    ensures Fold((items + TypedAll(t, text)) + [Typed(t, t.cc[VKILL])]) == Fold(items).(line := [])
  {
    TextAccumulates(t, items, text);
    FoldSnoc(items + TypedAll(t, text), Typed(t, t.cc[VKILL]));
  }

  // ------------------------------------------------------------------------- echo and signals

  /** `output_char`. */
  function EchoOf(t: Termios, ch: Byte): seq<Byte>
  {
    if ch == NL then [NL]
    else if ch == CR then [CR, NL]
    else if ch == t.cc[VERASE] then [8, 32, 8]
    else if ch == SPACE || Graphic(ch) then [ch]
    else if (ch < 0x20 || ch == 0x7f) && HasLflag(t, ECHOCTL) then ['^' as int, ch + 0x40]
    else []
  }

  function Echoed(items: seq<Item>): seq<Byte>
  {
    if items == [] then []
    else Echoed(items[..|items| - 1]) + EchoItem(items[|items| - 1])
  }

  function EchoItem(item: Item): seq<Byte>
  {
    match item
    case Drained => []
    case Typed(t, ch) =>
      match Translated(t, ch)
      case None => []
      case Some(c) => if HasLflag(t, ECHO) then EchoOf(t, c) else []
  }

  function Signalled(items: seq<Item>): seq<Signal>
  {
    if items == [] then []
    else Signalled(items[..|items| - 1]) + SignalItem(items[|items| - 1])
  }

  function SignalItem(item: Item): seq<Signal>
  {
    match item
    case Drained => []
    case Typed(t, ch) =>
      match Translated(t, ch)
      case None => []
      case Some(c) =>
        if !Canonical(t) || !HasLflag(t, ISIG) then []
        else match SignalFor(t, c)
             case None => []
             case Some(sig) => [sig]
  }

  /** Printable text: graphic characters and spaces, none of which has a function. */
  ghost predicate Words(t: Termios, text: seq<Byte>)
  {
    forall i :: 0 <= i < |text| ==> Ordinary(t, text[i]) && (Graphic(text[i]) || text[i] == SPACE)
  }

  lemma TypedSnoc(t: Termios, text: seq<Byte>, n: nat)
    requires |text| == n + 1
    ensures TypedAll(t, text) == TypedAll(t, text[..n]) + [Typed(t, text[n])]
  {
  }

  lemma {:induction false} WordsAccumulate(t: Termios, text: seq<Byte>)
    requires Canonical(t) && HasLflag(t, ECHO) && Words(t, text)
    ensures Fold(TypedAll(t, text)) == Edit(Without(text, SPACE), [])
  {
    if text != [] {
      var n := |text| - 1;
      WordsAccumulate(t, text[..n]);
      TypedSnoc(t, text, n);
      FoldSnoc(TypedAll(t, text[..n]), Typed(t, text[n]));
      TextStep(t, Without(text[..n], SPACE), text[n]);
    }
  }

  lemma {:induction false} WordsEchoed(t: Termios, text: seq<Byte>)
    requires Canonical(t) && HasLflag(t, ECHO) && Words(t, text)
    ensures Echoed(TypedAll(t, text)) == text
  {
    if text != [] {
      var n := |text| - 1;
      WordsEchoed(t, text[..n]);
      TypedSnoc(t, text, n);
      LogsSnoc(TypedAll(t, text[..n]), Typed(t, text[n]));
      TextStep(t, [], text[n]);
      assert text[..n] + [text[n]] == text;
    }
  }

  lemma TextStep(t: Termios, line: seq<Byte>, ch: Byte)
    requires Canonical(t) && HasLflag(t, ECHO) && Ordinary(t, ch) && (Graphic(ch) || ch == SPACE)
    ensures EchoItem(Typed(t, ch)) == [ch]
    ensures Step(Edit(line, []), Typed(t, ch)) == Edit(line + if ch == SPACE then [] else [ch], [])
  {
  }

  /** So a line of words appears on the screen as it was typed and is delivered with the words run
      together. */
  lemma WordsRunTogether(t: Termios, text: seq<Byte>)
    requires Canonical(t) && HasLflag(t, ECHO) && t.cc[VEOF] != NL && t.cc[VERASE] != NL && t.cc[VKILL] != NL
    requires Words(t, text)
    ensures Echoed(TypedAll(t, text) + [Typed(t, NL)]) == text + [NL]
    ensures Fold(TypedAll(t, text) + [Typed(t, NL)]) == Edit([], Without(text, SPACE) + [NL])
  {
    WordsAccumulate(t, text);
    WordsEchoed(t, text);
    FoldSnoc(TypedAll(t, text), Typed(t, NL));
    LogsSnoc(TypedAll(t, text), Typed(t, NL));
    assert [] + (Without(text, SPACE) + [NL]) == Without(text, SPACE) + [NL];
  }

  // ------------------------------------------------------------------------------ carriage returns

  /** With IGNCR a carriage return is as good as not typed. */
  lemma ReturnIgnored(t: Termios, items: seq<Item>)
    requires HasIflag(t, IGNCR)
    ensures Fold(items + [Typed(t, CR)]) == Fold(items)
    ensures Echoed(items + [Typed(t, CR)]) == Echoed(items) && Signalled(items + [Typed(t, CR)]) == Signalled(items)
  {
    FoldSnoc(items, Typed(t, CR));
    LogsSnoc(items, Typed(t, CR));
    AppendNothing(Echoed(items), Signalled(items));
  }

  /** With ICRNL and without IGNCR it is as good as a newline. */
  lemma ReturnIsNewline(t: Termios, items: seq<Item>)
    requires HasIflag(t, ICRNL) && !HasIflag(t, IGNCR)
    ensures Fold(items + [Typed(t, CR)]) == Fold(items + [Typed(t, NL)])
    ensures Echoed(items + [Typed(t, CR)]) == Echoed(items + [Typed(t, NL)])
    ensures Signalled(items + [Typed(t, CR)]) == Signalled(items + [Typed(t, NL)])
  {
    FoldSnoc(items, Typed(t, CR));
    FoldSnoc(items, Typed(t, NL));
    LogsSnoc(items, Typed(t, CR));
    LogsSnoc(items, Typed(t, NL));
  }

  /** So the return key ends a line of words: they are delivered and shown with a newline. */
  lemma ReturnEndsLine(t: Termios, text: seq<Byte>)
    requires HasIflag(t, ICRNL) && !HasIflag(t, IGNCR)
    requires Canonical(t) && HasLflag(t, ECHO) && t.cc[VEOF] != NL && t.cc[VERASE] != NL && t.cc[VKILL] != NL
    requires Words(t, text)
    ensures Echoed(TypedAll(t, text) + [Typed(t, CR)]) == text + [NL]
    ensures Fold(TypedAll(t, text) + [Typed(t, CR)]) == Edit([], Without(text, SPACE) + [NL])
  {
    ReturnIsNewline(t, TypedAll(t, text));
    WordsRunTogether(t, text);
  }

  /** With neither flag, a carriage return without a function is shown as a line break and is no part of
      the line. */
  lemma ReturnForgotten(t: Termios, items: seq<Item>)
    requires !HasIflag(t, ICRNL) && !HasIflag(t, IGNCR) && Canonical(t) && HasLflag(t, ECHO) && Ordinary(t, CR)
    ensures Fold(items + [Typed(t, CR)]) == Fold(items) && Echoed(items + [Typed(t, CR)]) == Echoed(items) + [CR, NL]
  {
    FoldSnoc(items, Typed(t, CR));
    LogsSnoc(items, Typed(t, CR));
  }

  /** The echo byte by byte: printable ASCII and the newline as they are, control characters with ECHOCTL
      in caret notation, and nothing else. */
  lemma EchoOfByte(t: Termios, items: seq<Item>, ch: Byte)
    requires ch != CR && ch != t.cc[VERASE]
    ensures Echoed(items + [Typed(t, ch)]) == Echoed(items) +
              if !HasLflag(t, ECHO) then []
              else if ch == NL || 0x20 <= ch < 0x7f then [ch]
              else if ch < 0x80 && HasLflag(t, ECHOCTL) then [94, ch + 64] else []
  {
    LogsSnoc(items, Typed(t, ch));
  }

  // --------------------------------------------------------------------------------- signals in bytes

  /** Signals are sent for the VINTR and the VQUIT byte, with ICANON and ISIG set, and for no other. */
  lemma SignalForByte(t: Termios, items: seq<Item>, ch: Byte)
    requires ch != CR
    ensures Signalled(items + [Typed(t, ch)]) == Signalled(items) +
              if !Canonical(t) || !HasLflag(t, ISIG) then []
              else if ch == t.cc[VINTR] then [SIGINT]
              else if ch == t.cc[VQUIT] then [SIGQUIT] else []
  {
    LogsSnoc(items, Typed(t, ch));
  }

  /** How often `x` occurs. */
  function Count<T(==)>(a: seq<T>, x: T): nat
  {
    if a == [] then 0 else Count(a[..|a| - 1], x) + if a[|a| - 1] == x then 1 else 0
  }

  lemma CountSnoc<T>(a: seq<T>, y: T, x: T)
    ensures Count(a + [y], x) == Count(a, x) + if y == x then 1 else 0
  {
    assert (a + [y])[..|a|] == a;
  }

  lemma SignalCounted(t: Termios, items: seq<Item>, ch: Byte, sig: Signal)
    requires Canonical(t) && HasLflag(t, ISIG) && ch != CR && t.cc[VINTR] != t.cc[VQUIT]
    ensures Count(Signalled(items + [Typed(t, ch)]), sig) ==
            Count(Signalled(items), sig) + if ch == t.cc[if sig == SIGINT then VINTR else VQUIT] then 1 else 0
  {
    SignalForByte(t, items, ch);
    var sent := Signalled(items);
    if ch == t.cc[VINTR] {
      CountSnoc(sent, SIGINT, sig);
    } else if ch == t.cc[VQUIT] {
      CountSnoc(sent, SIGQUIT, sig);
    } else {
      AppendNothing([], sent);
    }
  }

  /** As many interrupts as VINTR bytes were typed, and as many quits as VQUIT bytes. */
  lemma {:induction false} SignalCounts(t: Termios, text: seq<Byte>, sig: Signal)
    requires Canonical(t) && HasLflag(t, ISIG) && CR !in text && t.cc[VINTR] != t.cc[VQUIT]
    ensures Count(Signalled(TypedAll(t, text)), sig) == Count(text, t.cc[if sig == SIGINT then VINTR else VQUIT])
  {
    if text != [] {
      var n := |text| - 1;
      SignalCounts(t, text[..n], sig);
      TypedSnoc(t, text, n);
      SignalCounted(t, TypedAll(t, text[..n]), text[n], sig);
    }
  }

  // ------------------------------------------------------------------------- what is on the screen

  /** One row of a screen: what is left of the cursor, and what is from the cursor on. */
  datatype Screen = Screen(left: seq<Byte>, right: seq<Byte>)

  /** A backspace moves the cursor, any other byte is put where it stands. */
  function Show(s: Screen, b: Byte): Screen
  {
    if b != 8 then Screen(s.left + [b], if s.right == [] then [] else s.right[1..])
    else if s.left == [] then s
    else Screen(s.left[..|s.left| - 1], [s.left[|s.left| - 1]] + s.right)
  }

  function ShowAll(s: Screen, bytes: seq<Byte>): Screen
  {
    if bytes == [] then s else Show(ShowAll(s, bytes[..|bytes| - 1]), bytes[|bytes| - 1])
  }

  lemma {:induction false} ShowConcat(s: Screen, a: seq<Byte>, b: seq<Byte>)
    ensures ShowAll(s, a + b) == ShowAll(ShowAll(s, a), b)
  {
    if b == [] {
      assert a + b == a;
    } else {
      ShowConcat(s, a, b[..|b| - 1]);
      assert (a + b)[..|a + b| - 1] == a + b[..|b| - 1];
    }
  }

  ghost predicate Blank(cells: seq<Byte>) { forall i :: 0 <= i < |cells| ==> cells[i] == SPACE }

  lemma ShowThree(s: Screen, a: Byte, b: Byte, c: Byte)
    ensures ShowAll(s, [a, b, c]) == Show(Show(Show(s, a), b), c)
  {
    assert [a][..0] == [] && [a, b][..1] == [a] && [a, b, c][..2] == [a, b];
    assert ShowAll(s, [a]) == Show(s, a);
    assert ShowAll(s, [a, b]) == Show(ShowAll(s, [a]), b);
  }

  lemma RubbedOut(left: seq<Byte>, ch: Byte, right: seq<Byte>)
    ensures ShowAll(Screen(left + [ch], right), [8, 32, 8]) == Screen(left, [SPACE] + right)
  {
    ShowThree(Screen(left + [ch], right), 8, 32, 8);
    assert (left + [ch])[..|left|] == left && ([ch] + right)[1..] == right && (left + [SPACE])[..|left|] == left;
  }

  lemma NothingRubbedOut(right: seq<Byte>)
    ensures ShowAll(Screen([], right), [8, 32, 8]) == Screen([], [SPACE] + if right == [] then [] else right[1..])
  {
    ShowThree(Screen([], right), 8, 32, 8);
    assert [] + [SPACE] == [SPACE] && [SPACE][..0] == [];
  }

  lemma BlankFront(cells: seq<Byte>)
    requires Blank(cells)
    ensures Blank([SPACE] + cells) && Blank([SPACE] + if cells == [] then [] else cells[1..])
  {
  }

  /** The echo of an erase rubs out the cell before the cursor and leaves the cursor there. */
  lemma EraseShown(s: Screen)
    requires Blank(s.right)
    ensures var r := ShowAll(s, [8, 32, 8]);
            Blank(r.right) && r.left == if s.left == [] then [] else s.left[..|s.left| - 1]
  {
    BlankFront(s.right);
    if s.left == [] {
      NothingRubbedOut(s.right);
    } else {
      var n := |s.left| - 1;
      assert s.left == s.left[..n] + [s.left[n]];
      RubbedOut(s.left[..n], s.left[n], s.right);
    }
  }

  /** Text and corrections: every byte is plain or the erase byte, which has no other function. */
  ghost predicate Typing(t: Termios, text: seq<Byte>)
  {
    && t.cc[VERASE] != CR && t.cc[VERASE] != NL && !(HasLflag(t, ECHOK) && t.cc[VERASE] == t.cc[VKILL])
    && forall i :: 0 <= i < |text| ==> Plain(t, text[i]) || text[i] == t.cc[VERASE]
  }

  /** At no time have there been more erases than other bytes. */
  ghost predicate NeverTooMany(t: Termios, text: seq<Byte>)
  {
    forall k :: 0 <= k <= |text| ==> 2 * Count(text[..k], t.cc[VERASE]) <= k
  }

  lemma TooManySnoc(t: Termios, text: seq<Byte>, n: nat)
    requires |text| == n + 1
    ensures NeverTooMany(t, text) <==> NeverTooMany(t, text[..n]) && 2 * Count(text, t.cc[VERASE]) <= n + 1
  {
    assert text[..n + 1] == text;
    assert forall k :: 0 <= k <= n ==> text[..n][..k] == text[..k];
    if NeverTooMany(t, text) {
      forall k | 0 <= k <= n ensures 2 * Count(text[..n][..k], t.cc[VERASE]) <= k { assert text[..n][..k] == text[..k]; }
    }
    if NeverTooMany(t, text[..n]) && 2 * Count(text, t.cc[VERASE]) <= n + 1 {
      forall k | 0 <= k <= n + 1 ensures 2 * Count(text[..k], t.cc[VERASE]) <= k { assert k <= n ==> text[..n][..k] == text[..k]; }
    }
  }

  /** How the row and the edited line go together; `ok` while no erase hit an empty line. */
  ghost predicate InStep(prompt: seq<Byte>, s: Screen, line: seq<Byte>, ok: bool)
  {
    && Blank(s.right) && |line| <= |s.left|
    && (if ok then s.left == prompt + line else |s.left| < |prompt| + |line|)
  }

  lemma PlainShown(t: Termios, prompt: seq<Byte>, s: Screen, line: seq<Byte>, ok: bool, ch: Byte)
    requires Canonical(t) && HasLflag(t, ECHO) && Plain(t, ch) && InStep(prompt, s, line, ok)
    ensures InStep(prompt, ShowAll(s, EchoItem(Typed(t, ch))), Step(Edit(line, []), Typed(t, ch)).line, ok)
  {
    assert EchoItem(Typed(t, ch)) == [ch] && [ch][..0] == [];
    assert prompt + line + [ch] == prompt + (line + [ch]);
  }

  lemma EraseInStep(t: Termios, prompt: seq<Byte>, s: Screen, line: seq<Byte>, ok: bool)
    requires Canonical(t) && HasLflag(t, ECHO) && Typing(t, []) && InStep(prompt, s, line, ok) && prompt != []
    ensures InStep(prompt, ShowAll(s, EchoItem(Typed(t, t.cc[VERASE]))), Step(Edit(line, []), Typed(t, t.cc[VERASE])).line,
                   ok && line != [])
  {
    assert EchoItem(Typed(t, t.cc[VERASE])) == [8, 32, 8];
    EraseShown(s);
    if ok && line != [] {
      assert (prompt + line)[..|prompt + line| - 1] == prompt + line[..|line| - 1];
    }
  }

  /** The row after `items` have been typed behind a prompt. */
  function Row(prompt: seq<Byte>, items: seq<Item>): Screen { ShowAll(Screen(prompt, []), Echoed(items)) }

  lemma RowSnoc(prompt: seq<Byte>, items: seq<Item>, item: Item)
    ensures Row(prompt, items + [item]) == ShowAll(Row(prompt, items), EchoItem(item))
  {
    LogsSnoc(items, item);
    ShowConcat(Screen(prompt, []), Echoed(items), EchoItem(item));
  }

  lemma StepLine(e: Edit, item: Item)
    requires item.Typed? && Canonical(item.term)
    ensures Step(e, item).line == Step(Edit(e.line, []), item).line
  {
  }

  lemma RowStep(t: Termios, prompt: seq<Byte>, items: seq<Item>, ch: Byte, ok: bool)
    requires Canonical(t) && HasLflag(t, ECHO) && Typing(t, [ch]) && prompt != []
    requires InStep(prompt, Row(prompt, items), Fold(items).line, ok)
    ensures var next := items + [Typed(t, ch)];
            && InStep(prompt, Row(prompt, next), Fold(next).line, ok && !(ch == t.cc[VERASE] && Fold(items).line == []))
            && |Fold(next).line| == |Fold(items).line| +
               if ch != t.cc[VERASE] then 1 else if Fold(items).line == [] then 0 else -1
  {
    assert [ch][0] == ch;
    RowSnoc(prompt, items, Typed(t, ch));
    FoldSnoc(items, Typed(t, ch));
    StepLine(Fold(items), Typed(t, ch));
    if ch == t.cc[VERASE] {
      EraseInStep(t, prompt, Row(prompt, items), Fold(items).line, ok);
    } else {
      PlainShown(t, prompt, Row(prompt, items), Fold(items).line, ok, ch);
    }
  }

  lemma {:induction false} RowInStep(t: Termios, prompt: seq<Byte>, text: seq<Byte>)
    requires Canonical(t) && HasLflag(t, ECHO) && Typing(t, text) && prompt != []
    ensures InStep(prompt, Row(prompt, TypedAll(t, text)), Fold(TypedAll(t, text)).line, NeverTooMany(t, text))
    ensures NeverTooMany(t, text) ==> |Fold(TypedAll(t, text)).line| == |text| - 2 * Count(text, t.cc[VERASE])
  {
    if text == [] {
      assert prompt + [] == prompt;
    } else {
      var n := |text| - 1;
      RowInStep(t, prompt, text[..n]);
      TypedSnoc(t, text, n);
      TooManySnoc(t, text, n);
      RowStep(t, prompt, TypedAll(t, text[..n]), text[n], NeverTooMany(t, text[..n]));
    }
  }

  /** While text is typed and corrected behind a prompt, the row shows the prompt and the line being
      edited and nothing after it, exactly as long as there were never more erases than other bytes. */
  lemma ScreenShowsLine(t: Termios, prompt: seq<Byte>, text: seq<Byte>)
    requires Canonical(t) && HasLflag(t, ECHO) && Typing(t, text) && prompt != []
    ensures var s := ShowAll(Screen(prompt, []), Echoed(TypedAll(t, text)));
            Blank(s.right) && (s.left == prompt + Fold(TypedAll(t, text)).line <==> NeverTooMany(t, text))
  {
    RowInStep(t, prompt, text);
  }

  /** It happens: one erase on an empty line rubs out the end of the prompt. */
  lemma PromptRubbedOut(t: Termios, prompt: seq<Byte>)
    requires Canonical(t) && HasLflag(t, ECHO) && Typing(t, []) && prompt != []
    ensures var typed := [Typed(t, t.cc[VERASE])];
            ShowAll(Screen(prompt, []), Echoed(typed)).left == prompt[..|prompt| - 1] && Fold(typed) == Edit([], [])
  {
    var erase := Typed(t, t.cc[VERASE]);
    assert [] + [erase] == [erase];
    RowSnoc(prompt, [], erase);
    FoldSnoc([], erase);
    assert EchoItem(erase) == [8, 32, 8];
    EraseShown(Screen(prompt, []));
  }

  // ------------------------------------------------------------------------------------ bookkeeping

  /** The bytes typed, in order. */
  function Bytes(items: seq<Item>): seq<Byte>
  {
    if items == [] then []
    else
      var last := items[|items| - 1];
      Bytes(items[..|items| - 1]) + if last.Typed? then [last.ch] else []
  }

  lemma BytesSnoc(items: seq<Item>, item: Item)
    ensures Bytes(items + [item]) == Bytes(items) + if item.Typed? then [item.ch] else []
  {
    assert (items + [item])[..|items|] == items;
  }

  /** Taking the next byte off the read buffer moves it from the unread to the processed bytes. */
  lemma BytesTake(items: seq<Item>, t: Termios, buf: seq<Byte>, a: nat, b: nat, arrived: seq<Byte>)
    requires a < b <= |buf| && Unread(items, buf[a..b], arrived)
    ensures Unread(items + [Typed(t, buf[a])], buf[a + 1..b], arrived)
  {
    BytesSnoc(items, Typed(t, buf[a]));
    assert buf[a..b] == [buf[a]] + buf[a + 1..b];
  }

  lemma LogsSnoc(items: seq<Item>, item: Item)
    ensures Echoed(items + [item]) == Echoed(items) + EchoItem(item)
    ensures Signalled(items + [item]) == Signalled(items) + SignalItem(item)
  {
    assert (items + [item])[..|items|] == items;
  }

  // --------------------------------------------------------------------------- the input reader

  /** The edit buffer agrees with the fold over `history`. Without a pending line, everything emitted
      has been pushed; with one, the rest of it is what is still owed, and it is not empty. */
  ghost predicate Agrees(history: seq<Item>, lineBuf: seq<Byte>, lineRead: Option<nat>, pushed: seq<Byte>)
  {
    var e := Fold(history);
    match lineRead
    case None => lineBuf == e.line && pushed == e.out
    case Some(offset) => offset < |lineBuf| && e.line == [] && pushed + lineBuf[offset..] == e.out
  }

  /** Every byte the device delivered has been processed or is still unread. */
  ghost predicate Unread(history: seq<Item>, unread: seq<Byte>, arrived: seq<Byte>)
  {
    Bytes(history) + unread == arrived
  }

  ghost predicate Logged(history: seq<Item>, written: seq<Byte>, signals: seq<Signal>)
  {
    written == Echoed(history) && signals == Signalled(history)
  }

  lemma LoggedSnoc(items: seq<Item>, item: Item, written: seq<Byte>, signals: seq<Signal>)
    requires Logged(items, written, signals)
    ensures Logged(items + [item], written + EchoItem(item), signals + SignalItem(item))
  {
    LogsSnoc(items, item);
  }

  lemma AppendNothing(written: seq<Byte>, signals: seq<Signal>)
    ensures written + [] == written && signals + [] == signals
  {
  }

  class InputReader {
    var ring: seq<Byte>
    var readBuf: seq<Byte>
    var rangeStart: nat
    var rangeEnd: nat
    var lineBuf: seq<Byte>
    var lineRead: Option<nat>
    var clearLineBuf: bool
    var written: seq<Byte>
    var signals: seq<Signal>

    /** Everything that was processed, every byte the device delivered, every byte pushed into the
        ring, and what the reading side has taken out of it. */
    ghost var history: seq<Item>
    ghost var arrived: seq<Byte>
    ghost var pushed: seq<Byte>
    ghost var taken: seq<Byte>

    ghost predicate Shape()
      reads this
    {
      && |ring| <= BUF_SIZE && rangeStart <= rangeEnd <= |readBuf|
      && pushed == taken + ring
      && Unread(history, readBuf[rangeStart..rangeEnd], arrived) && Logged(history, written, signals)
    }

    ghost predicate Valid()
      reads this
    {
      Shape() && Agrees(history, lineBuf, lineRead, pushed)
    }

    /** Between polls a pending line has been delivered in part: a line becomes pending only while the
        ring has room, and some of it is pushed at once. */
    ghost predicate AtRest()
      reads this
    {
      lineRead.Some? ==> lineRead.value > 0
    }

    /** A pending line of no bytes: the loop of `poll` has nothing to push and never gets past it. */
    ghost predicate Stuck()
      reads this
    {
      Shape() && lineRead == Some(0) && lineBuf == []
    }

    constructor ()
      ensures Valid() && AtRest() && !clearLineBuf && lineRead.None? && rangeStart == rangeEnd
      ensures history == [] && arrived == [] && pushed == [] && taken == []
    {
      ring, readBuf, rangeStart, rangeEnd, lineBuf, lineRead, clearLineBuf := [], [], 0, 0, [], None, false;
      written, signals, history, arrived, pushed, taken := [], [], [], [], [], [];
    }

    /** The reading side pops some bytes. */
    method Pop(n: nat) returns (bytes: seq<Byte>)
      requires Shape()
      modifies this`ring, this`taken
      ensures Shape() && bytes == old(ring)[..if n <= |old(ring)| then n else |old(ring)|]
      ensures taken == old(taken) + bytes && ring == old(ring)[|bytes|..]
    {
      var k := if n <= |ring| then n else |ring|;
      bytes := ring[..k];
      ring := ring[k..];
      taken := taken + bytes;
    }

    /** `drain_input`: empties the ring and asks the next poll to forget the edited line. */
    method Drain()
      requires Shape()
      modifies this`ring, this`taken, this`clearLineBuf
      ensures Shape() && ring == [] && clearLineBuf && taken == pushed
    {
      taken := taken + ring;
      ring := [];
      clearLineBuf := true;
    }

    /** `push_slice` of the pending line. */
    method PushPending() returns (read: nat)
      requires Shape() && lineRead.Some? && Agrees(history, lineBuf, lineRead, pushed)
      modifies this`ring, this`pushed, this`lineRead, this`lineBuf
      ensures Shape() && Agrees(history, lineBuf, lineRead, pushed)
      ensures read == 0 <==> |old(ring)| == BUF_SIZE
      ensures read == 0 ==> ring == old(ring) && lineRead == old(lineRead) && lineBuf == old(lineBuf)
      ensures read > 0 && lineRead.Some? ==> lineBuf == old(lineBuf) && lineRead.value == old(lineRead).value + read
      ensures |pushed| == |old(pushed)| + read && old(pushed) <= pushed
    {
      var offset := lineRead.value;
      var room := BUF_SIZE - |ring|;
      var owed := |lineBuf| - offset;
      read := if owed <= room then owed else room;
      var slice := lineBuf[offset..offset + read];
      ring := ring + slice;
      PushedAgrees(history, lineBuf, offset, pushed, read);
      pushed := pushed + slice;
      lineRead := Some(offset + read);
      if offset + read == |lineBuf| {
        lineRead := None;
        lineBuf := [];
      }
    }

    /** `check_send_signal` and `output_char`. */
    method Announce(term: Termios, ch: Byte, ghost raw: Byte)
      requires Translated(term, raw) == Some(ch) && Logged(history, written, signals)
      modifies this`written, this`signals
      ensures Logged(history + [Typed(term, raw)], written, signals)
    {
      ghost var item := Typed(term, raw);
      LoggedSnoc(history, item, written, signals);
      AppendNothing(written, signals);
      if Canonical(term) && HasLflag(term, ISIG) {
        var sig := SignalFor(term, ch);
        if sig.Some? {
          signals := signals + [sig.value];
        }
      }
      if HasLflag(term, ECHO) {
        written := written + EchoOf(term, ch);
      }
      assert written == old(written) + EchoItem(item) && signals == old(signals) + SignalItem(item);
    }

    /** The canonical branch: edits the line, and marks it pending when it is complete. */
    method EditLine(term: Termios, ch: Byte)
      requires lineRead.None?
      modifies this`lineRead, this`lineBuf
      ensures Pending(Edited(term, Edit(old(lineBuf), []), ch), lineBuf, lineRead)
    {
      if HasLflag(term, ECHOK) && ch == term.cc[VKILL] {
        lineBuf := [];
      } else if ch == term.cc[VERASE] {
        if lineBuf != [] {
          lineBuf := lineBuf[..|lineBuf| - 1];
        }
      } else if IsEol(term, ch) || ch == term.cc[VEOF] {
        if ch != term.cc[VEOF] {
          lineBuf := lineBuf + [ch];
        }
        if lineBuf != [] {
          lineRead := Some(0);
        }
      } else if Graphic(ch) {
        lineBuf := lineBuf + [ch];
      }
    }

    /** What happens to a translated byte after it has been announced. */
    method Store(term: Termios, ch: Byte, ghost raw: Byte) returns (sent: nat)
      requires lineRead.None? && Agrees(history, lineBuf, lineRead, pushed) && Translated(term, raw) == Some(ch)
      requires |ring| < BUF_SIZE && pushed == taken + ring
      modifies this`ring, this`pushed, this`lineRead, this`lineBuf
      ensures Agrees(history + [Typed(term, raw)], lineBuf, lineRead, pushed)
      ensures |ring| <= BUF_SIZE && pushed == taken + ring && (lineRead.Some? ==> ring == old(ring))
      ensures |pushed| == |old(pushed)| + sent && old(pushed) <= pushed
    {
      FoldSnoc(history, Typed(term, raw));
      if !Canonical(term) {
        ring := ring + [ch];
        pushed := pushed + [ch];
        return 1;
      }
      EditedSplit(term, Fold(history), ch);
      EditLine(term, ch);
      sent := 0;
    }

    /** Translation, signals, echo, and then raw mode or canonical editing. */
    method Process(term: Termios, raw: Byte) returns (sent: nat)
      requires lineRead.None? && Agrees(history, lineBuf, lineRead, pushed)
      requires |ring| < BUF_SIZE && pushed == taken + ring && Logged(history, written, signals)
      modifies this`ring, this`pushed, this`lineRead, this`lineBuf, this`written, this`signals
      ensures Agrees(history + [Typed(term, raw)], lineBuf, lineRead, pushed)
      ensures |ring| <= BUF_SIZE && pushed == taken + ring && (lineRead.Some? ==> ring == old(ring))
      ensures Logged(history + [Typed(term, raw)], written, signals)
      ensures |pushed| == |old(pushed)| + sent && old(pushed) <= pushed
    {
      var ch := raw;
      if ch == CR {
        if HasIflag(term, IGNCR) {
          IgnoredAgrees(history, lineBuf, pushed, term);
          return 0;
        }
        if HasIflag(term, ICRNL) {
          ch := NL;
        }
      }
      Announce(term, ch, raw);
      sent := Store(term, ch, raw);
    }

    /** Takes one byte off the read buffer. */
    method TakeByte(term: Termios) returns (sent: nat)
      requires Shape() && lineRead.None? && Agrees(history, lineBuf, lineRead, pushed)
      requires |ring| < BUF_SIZE && rangeStart < rangeEnd
      modifies this`ring, this`pushed, this`lineRead, this`lineBuf, this`rangeStart, this`written, this`signals, this`history
      ensures Shape() && Agrees(history, lineBuf, lineRead, pushed) && (lineRead.Some? ==> ring == old(ring))
      ensures rangeStart == old(rangeStart) + 1 && history == old(history) + [Typed(term, readBuf[old(rangeStart)])]
      ensures |pushed| == |old(pushed)| + sent && old(pushed) <= pushed
    {
      var raw := readBuf[rangeStart];
      ghost var next := history + [Typed(term, raw)];
      BytesTake(history, term, readBuf, rangeStart, rangeEnd, arrived);
      rangeStart := rangeStart + 1;
      sent := Process(term, raw);
      history := next;
    }

    ghost function Owed(): nat
      reads this
    {
      if lineRead.Some? && lineRead.value <= |lineBuf| then |lineBuf| - lineRead.value else 0
    }

    /** A pending line that has not been touched yet has room to go to. */
    ghost predicate Eager()
      reads this
    {
      lineRead == Some(0) ==> |ring| < BUF_SIZE
    }

    /** One round of the loop of `poll`; before it, the reading side may have popped some bytes, unless
        it is `idle`. */
    method Round(term: Termios, idle: bool) returns (stop: bool, sent: nat)
      requires Valid() && !clearLineBuf
      modifies this`ring, this`pushed, this`taken, this`lineRead, this`lineBuf, this`rangeStart, this`written, this`signals, this`history
      ensures Valid() && (old(Eager()) ==> Eager() && (stop ==> AtRest())) && (idle ==> taken == old(taken))
      ensures |pushed| == |old(pushed)| + sent && old(pushed) <= pushed
      ensures stop && |ring| < BUF_SIZE ==> rangeStart == rangeEnd && lineRead.None?
      ensures !stop ==> rangeStart > old(rangeStart) || (rangeStart == old(rangeStart) && Owed() < old(Owed()))
      ensures Since(old(history), history, term)
    {
      if !idle {
        var pops: nat := *;
        var popped := Pop(pops);
      }
      stop, sent := false, 0;
      if lineRead.Some? {
        sent := PushPending();
        stop := sent == 0;
      } else if |ring| == BUF_SIZE || rangeStart == rangeEnd {
        stop := true;
      } else {
        sent := TakeByte(term);
      }
    }

    /** The loop of `poll`. */
    method Drive(term: Termios, idle: bool) returns (sent: nat)
      requires Valid() && !clearLineBuf
      modifies this`ring, this`pushed, this`taken, this`lineRead, this`lineBuf, this`rangeStart, this`written, this`signals, this`history
      ensures Valid() && (old(AtRest()) ==> AtRest()) && (idle ==> taken == old(taken))
      ensures old(pushed) <= pushed && |pushed| == |old(pushed)| + sent
      ensures |ring| < BUF_SIZE ==> rangeStart == rangeEnd && lineRead.None?
      ensures Since(old(history), history, term)
    {
      sent := 0;
      var stop := false;
      while !stop
        invariant Valid() && (old(AtRest()) ==> Eager() && (stop ==> AtRest())) && (idle ==> taken == old(taken))
        invariant old(pushed) <= pushed && |pushed| == |old(pushed)| + sent
        invariant stop && |ring| < BUF_SIZE ==> rangeStart == rangeEnd && lineRead.None?
        invariant Since(old(history), history, term)
        decreases !stop, rangeEnd - rangeStart, Owed()
      {
        var n;
        stop, n := Round(term, idle);
        sent := sent + n;
      }
    }

    /** The head of `poll`: a drain empties the edit buffer, even under a pending line, and the device is
        asked for bytes when none is left. */
    method Refill(chunk: seq<Byte>)
      requires Shape() && |chunk| <= BUF_SIZE
      modifies this`clearLineBuf, this`lineBuf, this`history, this`readBuf, this`rangeStart, this`rangeEnd, this`arrived
      ensures Shape() && !clearLineBuf
      ensures lineBuf == if old(clearLineBuf) then [] else old(lineBuf)
      ensures history == if old(clearLineBuf) && lineRead.None? then old(history) + [Drained] else old(history)
      ensures old(Agrees(history, lineBuf, lineRead, pushed)) && !(old(clearLineBuf) && lineRead.Some?) ==>
        Agrees(history, lineBuf, lineRead, pushed)
      ensures arrived == if old(rangeStart) == old(rangeEnd) then old(arrived) + chunk else old(arrived)
    {
      if clearLineBuf { Forget(); }
      if rangeStart == rangeEnd {
        ArrivedMore(history, readBuf[rangeStart..rangeEnd], arrived, chunk);
        readBuf, rangeStart, rangeEnd := chunk, 0, |chunk|;
        arrived := arrived + chunk;
      }
    }

    method Forget()
      requires Shape()
      modifies this`clearLineBuf, this`lineBuf, this`history
      ensures Shape() && !clearLineBuf && lineBuf == []
      ensures history == if lineRead.None? then old(history) + [Drained] else old(history)
      ensures old(Agrees(history, lineBuf, lineRead, pushed)) && lineRead.None? ==> Agrees(history, lineBuf, lineRead, pushed)
    {
      clearLineBuf := false;
      if lineRead.None? {
        DrainedLogs(history, readBuf[rangeStart..rangeEnd], arrived, written, signals);
        if Agrees(history, lineBuf, None, pushed) { DrainedAgrees(history, lineBuf, pushed); }
        history := history + [Drained];
      }
      lineBuf := [];
    }

    /** `InputReader::poll` under the settings `term`; `chunk` is what the device would deliver if it
        is asked. Whatever the chunking and the reading side's pace, what has been pushed is what the
        fold over the input has emitted, up to a pending line that only waits for room. After a drain
        this is so exactly when no line was pending: under one that had been delivered in part the poll
        panics, and under an untouched one the reader delivers and processes nothing any more. */
    method Poll(term: Termios, chunk: seq<Byte>, idle: bool) returns (r: Outcome)
      requires (Valid() || Stuck()) && |chunk| <= BUF_SIZE
      modifies this
      ensures r != Panic ==> !clearLineBuf && (Stuck() || Valid())
      ensures r != Panic && old(Valid()) && old(AtRest()) ==> Valid() && AtRest()
      ensures old(pushed) <= pushed && (r == Done(true) ==> |pushed| > |old(pushed)|)
      ensures r == Panic <==> old(clearLineBuf) && old(lineRead).Some? && old(lineRead).value > 0
      ensures Stuck() && r != Panic <==> old(Stuck()) || (old(clearLineBuf) && old(lineRead) == Some(0))
      ensures Stuck() ==> r != Done(true) && pushed == old(pushed) && history == old(history)
      ensures r != Panic && !Stuck() ==>
        && (r == Done(true) <==> |pushed| > |old(pushed)|)
        && arrived == (if old(rangeStart) == old(rangeEnd) then old(arrived) + chunk else old(arrived))
        && Since(if old(clearLineBuf) then old(history) + [Drained] else old(history), history, term)
        && (|ring| < BUF_SIZE ==> lineRead.None? && Bytes(history) == arrived && pushed == Fold(history).out)
      ensures idle ==> taken == old(taken)
    {
      Refill(chunk);
      // The first round of the loop slices the edit buffer at the offset.
      if lineRead.Some? && lineRead.value > |lineBuf| { return Panic; }
      if lineRead.Some? && lineRead.value == |lineBuf| { return Done(false); }
      var sent := Drive(term, idle);
      assert rangeStart == rangeEnd ==> readBuf[rangeStart..rangeEnd] == [];
      r := Done(sent > 0);
    }

    /** Any run of polls, drains and reads. Starting from a new reader it never gets stuck: it goes on as
        the fold says until a poll panics (if ever). A reader that is stuck stays so, and neither
        processes nor delivers another byte. */
    method Serve(events: seq<Event>) returns (panicked: bool)
      requires (Valid() && AtRest()) || Stuck()
      modifies this
      ensures !panicked && !old(Stuck()) ==> Valid() && AtRest()
      ensures old(Stuck()) ==> !panicked && Stuck() && pushed == old(pushed) && history == old(history)
    {
      for i := 0 to |events|
        invariant !old(Stuck()) ==> Valid() && AtRest()
        invariant old(Stuck()) ==> Stuck() && pushed == old(pushed) && history == old(history)
      {
        match events[i] {
          case Polled(term, chunk) =>
            var r := Poll(term, chunk, false);
            if r == Panic { return true; }
          case Drain =>
            Drain();
          case Read(n) =>
            var bytes := Pop(n);
        }
      }
      panicked := false;
    }
  }

  datatype Outcome = Done(progress: bool) | Panic

  type Chunk = c: seq<Byte> | |c| <= BUF_SIZE

  datatype Event = Polled(term: Termios, chunk: Chunk) | Drain | Read(n: nat)

  // ------------------------------------------------------------- a drain under a pending line

  const PLAIN_TERMIOS: Termios := Raw(0, ICANON, seq(NCC, _ => 0))

  const LONG_LINE: seq<Byte> := seq(BUF_SIZE, _ => 97)

  ghost predicate AllTyped(t: Termios, items: seq<Item>)
  {
    forall i :: 0 <= i < |items| ==> items[i].Typed? && items[i].term == t
  }

  lemma {:induction false} TypedBytes(t: Termios, items: seq<Item>)
    requires AllTyped(t, items)
    ensures items == TypedAll(t, Bytes(items))
  {
    if items != [] {
      var n := |items| - 1;
      TypedBytes(t, items[..n]);
      assert items == items[..n] + [items[n]];
      BytesSnoc(items[..n], items[n]);
    }
  }

  /** Of a line of 80 bytes nothing is emitted before its newline, and then all 81 bytes at once. */
  lemma LongLine(items: seq<Item>, rest: seq<Byte>)
    requires AllTyped(PLAIN_TERMIOS, items) && Bytes(items) + rest == LONG_LINE + [NL]
    ensures |Fold(items).out| == if rest == [] then BUF_SIZE + 1 else 0
  {
    var t, typed := PLAIN_TERMIOS, Bytes(items);
    TypedBytes(t, items);
    assert Canonical(t) by { assert ICANON & ICANON == ICANON; }
    if rest == [] {
      assert typed == LONG_LINE + [NL];
      assert TypedAll(t, typed) == TypedAll(t, LONG_LINE) + [Typed(t, NL)];
      LineDelivered(t, LONG_LINE);
    } else {
      assert typed == LONG_LINE[..|typed|] by {
        assert typed == (LONG_LINE + [NL])[..|typed|];
      }
      LineDelivered(t, LONG_LINE[..|typed|]);
    }
  }

  method TypeLongLine() returns (reader: InputReader)
    ensures fresh(reader) && reader.Valid() && reader.AtRest() && !reader.clearLineBuf && reader.lineRead.None?
    ensures reader.arrived == LONG_LINE && reader.taken == reader.pushed == [] && reader.rangeStart == reader.rangeEnd
    ensures AllTyped(PLAIN_TERMIOS, reader.history)
  {
    reader := new InputReader();
    var first := reader.Poll(PLAIN_TERMIOS, LONG_LINE, true);
    AfterLongLine(reader.history, reader.arrived, reader.readBuf[reader.rangeStart..reader.rangeEnd],
                  reader.lineBuf, reader.lineRead, reader.pushed);
  }

  method TypeNewline(reader: InputReader)
    requires reader.Valid() && reader.AtRest() && !reader.clearLineBuf && reader.lineRead.None?
    requires reader.arrived == LONG_LINE && reader.taken == reader.pushed == [] && reader.rangeStart == reader.rangeEnd
    requires AllTyped(PLAIN_TERMIOS, reader.history)
    modifies reader
    ensures reader.Valid() && reader.AtRest() && reader.lineRead.Some?
  {
    var second := reader.Poll(PLAIN_TERMIOS, [NL], true);
    LongLine(reader.history, reader.readBuf[reader.rangeStart..reader.rangeEnd]);
  }

  /** It happens: a line one byte longer than the ring, a drain, and the next poll panics. */
  method DrainUnderPendingLine() returns (r: Outcome)
    ensures r == Panic
  {
    var reader := TypeLongLine();
    TypeNewline(reader);
    reader.Drain();
    r := reader.Poll(PLAIN_TERMIOS, [], true);
  }

  lemma AfterLongLine(history: seq<Item>, arrived: seq<Byte>, unread: seq<Byte>, lineBuf: seq<Byte>,
                      lineRead: Option<nat>, pushed: seq<Byte>)
    requires AllTyped(PLAIN_TERMIOS, history) && arrived == LONG_LINE && Unread(history, unread, arrived)
    requires Agrees(history, lineBuf, lineRead, pushed)
    ensures pushed == []
  {
    assert Bytes(history) + (unread + [NL]) == LONG_LINE + [NL];
    LongLine(history, unread + [NL]);
  }

  /** `after` extends `before` by bytes typed under the settings `term`. */
  ghost predicate Since(before: seq<Item>, after: seq<Item>, term: Termios)
  {
    before <= after && forall i :: |before| <= i < |after| ==> after[i].Typed? && after[i].term == term
  }

  lemma DrainedAgrees(history: seq<Item>, lineBuf: seq<Byte>, pushed: seq<Byte>)
    requires Agrees(history, lineBuf, None, pushed)
    ensures Agrees(history + [Drained], [], None, pushed)
  {
    FoldSnoc(history, Drained);
  }

  lemma DrainedLogs(history: seq<Item>, unread: seq<Byte>, arrived: seq<Byte>, written: seq<Byte>, signals: seq<Signal>)
    requires Unread(history, unread, arrived) && Logged(history, written, signals)
    ensures Unread(history + [Drained], unread, arrived) && Logged(history + [Drained], written, signals)
  {
    BytesSnoc(history, Drained);
    LoggedSnoc(history, Drained, written, signals);
    AppendNothing(written, signals);
    AppendNothing(Bytes(history), signals);
  }

  lemma ArrivedMore(history: seq<Item>, none: seq<Byte>, arrived: seq<Byte>, chunk: seq<Byte>)
    requires Unread(history, none, arrived) && none == []
    ensures Unread(history, chunk[0..|chunk|], arrived + chunk)
  {
    assert chunk[0..|chunk|] == chunk && Bytes(history) + none == Bytes(history);
  }

  /** At any time, whatever may still be typed, what has been pushed is a prefix of what the fold over
      the whole input emits. */
  lemma PushedIsPrefix(history: seq<Item>, lineBuf: seq<Byte>, lineRead: Option<nat>, pushed: seq<Byte>, future: seq<Item>)
    requires Agrees(history, lineBuf, lineRead, pushed)
    ensures pushed <= Fold(history + future).out
  {
    FoldOnlyGrows(history, future);
  }

  lemma PushedAgrees(history: seq<Item>, lineBuf: seq<Byte>, offset: nat, pushed: seq<Byte>, read: nat)
    requires Agrees(history, lineBuf, Some(offset), pushed) && offset + read <= |lineBuf|
    ensures var after := pushed + lineBuf[offset..offset + read];
            if offset + read == |lineBuf| then Agrees(history, [], None, after)
            else Agrees(history, lineBuf, Some(offset + read), after)
  {
    assert lineBuf[offset..] == lineBuf[offset..offset + read] + lineBuf[offset + read..];
  }

  lemma IgnoredAgrees(history: seq<Item>, lineBuf: seq<Byte>, pushed: seq<Byte>, term: Termios)
    requires Agrees(history, lineBuf, None, pushed) && HasIflag(term, IGNCR)
    ensures Agrees(history + [Typed(term, CR)], lineBuf, None, pushed)
    ensures Echoed(history + [Typed(term, CR)]) == Echoed(history)
    ensures Signalled(history + [Typed(term, CR)]) == Signalled(history)
  {
    FoldSnoc(history, Typed(term, CR));
    LogsSnoc(history, Typed(term, CR));
    assert Echoed(history) + [] == Echoed(history) && Signalled(history) + [] == Signalled(history);
  }

  /** How the edit buffer represents the outcome `e` of editing one byte. */
  ghost predicate Pending(e: Edit, lineBuf: seq<Byte>, lineRead: Option<nat>)
  {
    if e.out == [] then lineRead.None? && lineBuf == e.line
    else lineRead == Some(0) && lineBuf == e.out && e.line == []
  }

  /** Editing looks only at the line; what was emitted before stays in front. */
  lemma EditedSplit(t: Termios, e: Edit, ch: Byte)
    ensures var x := Edited(t, Edit(e.line, []), ch); Edited(t, e, ch) == Edit(x.line, e.out + x.out)
  {}
}
