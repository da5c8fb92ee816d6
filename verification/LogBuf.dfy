/** The logger's message buffer: it grows up to a limit, then cuts the message and marks the cut. */
module LogBuf {
  import opened Decimal

  const INT32_LEN := 11  // without the NUL, the length of "-2147483648"
  const INT64_LEN := 20  // that of "-9223372036854775808"

  /** Every 32-bit number has at most 11 digits in base 10 and 16, every 64-bit one at most 20 in base 10. */
  lemma ScratchSuffices()
    ensures 0x1_0000_0000 <= Pow(10, INT32_LEN) && 0x1_0000_0000 <= Pow(16, INT32_LEN)
    ensures 0x1_0000_0000_0000_0000 <= Pow(10, INT64_LEN)
  {
    assert Pow(10, 5) == 100000 && Pow(10, 10) == 10000000000 && Pow(10, 15) == 1000000000000000;
    assert Pow(16, 4) == 0x1_0000 && Pow(16, 8) == 0x1_0000_0000;
  }

  /** A text whose tail is overlaid by a mark; a longer mark is itself cut. */
  function Overlay(s: string, mark: string): (r: string)
    ensures |r| == |s|
  {
    var p := if |mark| < |s| then |s| - |mark| else 0;
    s[..p] + mark[..|s| - p]
  }

  /** What a message may hold: all of it, or its first limit - 1 characters, marked. */
  function Cut(all: string, limit: nat, mark: string): string
  {
    if limit == 0 || |all| < limit then all else Overlay(all[..limit - 1], mark)
  }

  /**
   The content is all of the message when it is shorter than the limit; else limit - 1 characters, of which the
   last are the front of the mark, as much of it as there is room for, and the others those of the message.
   */
  ghost predicate IsCut(content: string, all: string, limit: nat, mark: string)
  {
    if limit == 0 || |all| < limit then content == all
    else
      var n := limit - 1;
      var marked := if |mark| < n then |mark| else n;
      && |content| == n
      && (forall i :: 0 <= i < n - marked ==> content[i] == all[i])
      && (forall i :: 0 <= i < marked ==> content[n - marked + i] == mark[i])
  }

  lemma CutMeans(content: string, all: string, limit: nat, mark: string)
    ensures content == Cut(all, limit, mark) <==> IsCut(content, all, limit, mark)
  {
    if limit > 0 && |all| >= limit {
      var n := limit - 1;
      var cut := Overlay(all[..n], mark);
      OverlayMeans(all[..n], mark);
      if IsCut(content, all, limit, mark) {
        var marked := if |mark| < n then |mark| else n;
        assert forall i :: n - marked <= i < n ==> content[i] == content[n - marked + (i - (n - marked))] == cut[i];
        assert content == cut;
      }
    }
  }

  lemma OverlayMeans(s: string, mark: string)
    ensures var r, marked := Overlay(s, mark), if |mark| < |s| then |mark| else |s|;
      && (forall i :: 0 <= i < |s| - marked ==> r[i] == s[i])
      && (forall i :: 0 <= i < marked ==> r[|s| - marked + i] == mark[i])
  {
  }

  /** The first out characters of s (all for out = 0), filled up with blanks to in characters. */
  function Adjusted(s: string, left: bool, inWidth: nat, outWidth: nat): string
  {
    var source := if outWidth == 0 || |s| < outWidth then s else s[..outWidth];
    var blanks := if inWidth > |source| then Repeat(' ', inWidth - |source|) else "";
    if left then source + blanks else blanks + source
  }

  class Buf {
    var data: array<char>  // start .. end_plus_1
    var tail: nat
    const sizeMin: nat
    const sizeMax: nat
    var sizeReal: nat
    const mark: string  // truncate_str

    ghost predicate Valid()
      reads this
    {
      && data.Length == sizeReal > tail
      && (sizeMax == 0 || sizeReal <= sizeMax)
    }

    ghost function Content(): string
      reads this, data
      requires Valid()
    {
      data[..tail]
    }

    constructor (sizeMin: nat, sizeMax: nat, mark: string)
      requires sizeMin > 0 && (sizeMax == 0 || sizeMin <= sizeMax)
      ensures Valid() && fresh(data) && Content() == ""
      ensures this.sizeMax == sizeMax && this.mark == mark
    {
      this.sizeMin, this.sizeMax, this.mark := sizeMin, sizeMax, mark;
      sizeReal := sizeMin;
      data := new char[sizeMin];
      tail := 0;
    }

    method Restart()
      requires Valid()
      modifies this`tail
      ensures Valid() && Content() == ""
    {
      tail := 0;
    }

    /** memcpy or memset of a piece. */
    method Store(at: nat, s: string)
      requires Valid() && at + |s| <= data.Length
      modifies data
      ensures data[..at + |s|] == old(data[..at]) + s
    {
      forall i | 0 <= i < |s| {
        data[at + i] := s[i];
      }
    }

    /** zlog_buf_truncate: the mark over the tail of the content. */
    method Truncate()
      requires Valid()
      modifies data
      ensures Valid() && Content() == Overlay(old(Content()), mark)
      ensures var marked := if |mark| < tail then |mark| else tail;
        forall i :: 0 <= i < tail ==>
          data[i] == if i < tail - marked then old(data[i]) else mark[i - (tail - marked)]
    {
      if mark == "" {
        return;
      }
      var p := if |mark| < tail then tail - |mark| else 0;
      var len := tail - p;
      Store(p, mark[..len]);
    }

    /** zlog_buf_resize: 0 when the room was made, 1 when the limit stops it; then all room there is was taken. */
    method Resize(increment: nat) returns (rc: int)
      requires Valid() && increment > 0
      modifies this`data, this`sizeReal
      ensures Valid() && Content() == old(Content())
      ensures data == old(data) || fresh(data)
      ensures rc == if sizeMax == 0 || old(sizeReal) + increment <= sizeMax then 0 else 1
      ensures if rc == 0 then sizeReal >= old(sizeReal) + increment else sizeReal == sizeMax
    {
      if sizeMax != 0 && sizeReal >= sizeMax {
        return 1;
      }
      rc := 0;
      var newSize;
      if sizeMax == 0 {
        newSize := sizeReal + 3 * increment / 2;
      } else if sizeReal + increment <= sizeMax {
        newSize := sizeReal + increment;
      } else {
        newSize := sizeMax;
        rc := 1;
      }
      var p := new char[newSize];
      forall i | 0 <= i < sizeReal {
        p[i] := data[i];
      }
      data := p;
      sizeReal := newSize;
    }

    /** The end of a call that met the limit: the room is full of the piece's front, and is marked. */
    method MarkCut(ghost before: string, ghost piece: string)
      requires Valid() && sizeReal == sizeMax && tail == sizeReal - 1
      requires |before| + |piece| >= sizeMax && |before| < sizeMax
      requires Content() == before + piece[..sizeMax - 1 - |before|]
      modifies data
      ensures Valid() && Content() == Cut(before + piece, sizeMax, mark)
    {
      assert before + piece[..sizeMax - 1 - |before|] == (before + piece)[..sizeMax - 1];
      Truncate();
    }

    /** zlog_buf_append. */
    method Append(str: string) returns (rc: int)
      requires Valid()
      modifies this, data
      ensures Valid() && (data == old(data) || fresh(data))
      ensures Content() == Cut(old(Content()) + str, sizeMax, mark)
      ensures rc == if sizeMax == 0 || |old(Content())| + |str| < sizeMax then 0 else 1
    {
      if tail + |str| > sizeReal - 1 {
        rc := Resize(|str| - (sizeReal - 1 - tail));
        if rc > 0 {
          var lenLeft := sizeReal - 1 - tail;
          Store(tail, str[..lenLeft]);
          tail := tail + lenLeft;
          MarkCut(old(Content()), str);
          return 1;
        }
      }
      Store(tail, str);
      tail := tail + |str|;
      rc := 0;
    }

    /** A padded number: zeros, then digits; both shortened when the limit stops the buffer. */
    method PutPadded(digits: string, width: nat) returns (rc: int)
      requires Valid()
      modifies this, data
      ensures Valid() && (data == old(data) || fresh(data))
      ensures var piece := ZeroPadded(digits, width);
        && Content() == Cut(old(Content()) + piece, sizeMax, mark)
        && rc == if sizeMax == 0 || |old(Content())| + |piece| < sizeMax then 0 else 1
    {
      ghost var piece := ZeroPadded(digits, width);
      var numLen, zeroLen, outLen := |digits|, 0, |digits|;
      if width > numLen {
        zeroLen := width - numLen;
        outLen := width;
      }
      if tail + outLen > sizeReal - 1 {
        rc := Resize(outLen - (sizeReal - 1 - tail));
        if rc > 0 {
          var lenLeft := sizeReal - 1 - tail;
          if lenLeft <= zeroLen {
            zeroLen := lenLeft;
            numLen := 0;
          } else {
            numLen := lenLeft - zeroLen;
          }
          StoreBoth(Repeat('0', zeroLen), digits[..numLen]);
          assert Repeat('0', zeroLen) + digits[..numLen] == piece[..lenLeft];
          MarkCut(old(Content()), piece);
          return 1;
        }
      }
      StoreBoth(Repeat('0', zeroLen), digits);
      assert Repeat('0', zeroLen) + digits == piece;
      rc := 0;
    }

    /** Two pieces side by side, and the tail behind them. */
    method StoreBoth(first: string, second: string)
      requires Valid() && tail + |first| + |second| < sizeReal
      modifies this`tail, data
      ensures Valid() && Content() == old(Content()) + (first + second)
    {
      Store(tail, first);
      Store(tail + |first|, second);
      ghost var before := old(Content());
      assert before + first + second == before + (first + second);
      tail := tail + |first| + |second|;
    }

    /** zlog_buf_printf_dec32 and _dec64 (base 10) and _hex (base 16), for a scratch array of len characters. */
    method PrintNumber(n: nat, base: nat, len: nat, width: nat) returns (rc: int)
      requires Valid() && 2 <= base <= 16 && len > 0 && n < Pow(base, len)
      modifies this, data
      ensures Valid() && (data == old(data) || fresh(data))
      ensures var piece := ZeroPadded(Numeral(n, base), width);
        && Content() == Cut(old(Content()) + piece, sizeMax, mark)
        && rc == if sizeMax == 0 || |old(Content())| + |piece| < sizeMax then 0 else 1
    {
      var digits := Convert(n, base, len);
      rc := PutPadded(digits, width);
    }

    /** zlog_buf_printf_dec32: a scratch array of 11 characters is enough. */
    method PrintDec32(n: nat, width: nat) returns (rc: int)
      requires Valid() && n < 0x1_0000_0000
      modifies this, data
      ensures Valid() && (data == old(data) || fresh(data))
      ensures var piece := ZeroPadded(Numeral(n, 10), width);
        && Content() == Cut(old(Content()) + piece, sizeMax, mark)
        && rc == if sizeMax == 0 || |old(Content())| + |piece| < sizeMax then 0 else 1
    {
      ScratchSuffices();
      rc := PrintNumber(n, 10, INT32_LEN, width);
    }

    /** zlog_buf_printf_dec64: one of 20 is. */
    method PrintDec64(n: nat, width: nat) returns (rc: int)
      requires Valid() && n < 0x1_0000_0000_0000_0000
      modifies this, data
      ensures Valid() && (data == old(data) || fresh(data))
      ensures var piece := ZeroPadded(Numeral(n, 10), width);
        && Content() == Cut(old(Content()) + piece, sizeMax, mark)
        && rc == if sizeMax == 0 || |old(Content())| + |piece| < sizeMax then 0 else 1
    {
      ScratchSuffices();
      rc := PrintNumber(n, 10, INT64_LEN, width);
    }

    /** zlog_buf_printf_hex. */
    method PrintHex(n: nat, width: nat) returns (rc: int)
      requires Valid() && n < 0x1_0000_0000
      modifies this, data
      ensures Valid() && (data == old(data) || fresh(data))
      ensures var piece := ZeroPadded(Numeral(n, 16), width);
        && Content() == Cut(old(Content()) + piece, sizeMax, mark)
        && rc == if sizeMax == 0 || |old(Content())| + |piece| < sizeMax then 0 else 1
    {
      ScratchSuffices();
      rc := PrintNumber(n, 16, INT32_LEN, width);
    }

    /** zlog_buf_adjust_append. */
    method AdjustAppend(str: string, left: bool, inWidth: nat, outWidth: nat) returns (rc: int)
      requires Valid()
      modifies this, data
      ensures Valid() && (data == old(data) || fresh(data))
      ensures var piece := Adjusted(str, left, inWidth, outWidth);
        && Content() == Cut(old(Content()) + piece, sizeMax, mark)
        && rc == if sizeMax == 0 || |old(Content())| + |piece| < sizeMax then 0 else 1
    {
      var sourceLen := if outWidth == 0 || |str| < outWidth then |str| else outWidth;
      var appendLen, spaceLen := sourceLen, 0;
      if inWidth != 0 && sourceLen < inWidth {
        appendLen := inWidth;
        spaceLen := inWidth - sourceLen;
      }
      AdjustedIs(str, left, inWidth, outWidth, sourceLen, spaceLen);
      rc := PutAdjusted(str, left, sourceLen, spaceLen, appendLen);
    }

    /** The text and its blanks stored, both shortened when the limit stops the buffer. */
    method PutAdjusted(str: string, left: bool, sourceLen: nat, spaceLen: nat, appendLen: nat) returns (rc: int)
      requires Valid() && sourceLen <= |str| && appendLen == sourceLen + spaceLen
      modifies this, data
      ensures Valid() && (data == old(data) || fresh(data))
      ensures Content() == Cut(old(Content()) + SideBySide(str[..sourceLen], spaceLen, left), sizeMax, mark)
      ensures rc == if sizeMax == 0 || |old(Content())| + appendLen < sizeMax then 0 else 1
    {
      if appendLen > sizeReal - 1 - tail {
        rc := Resize(appendLen - (sizeReal - 1 - tail));
        if rc > 0 {
          var source, space := Shorten(str, left, sourceLen, spaceLen, sizeReal - 1 - tail);
          StoreSideBySide(str[..source], space, left);
          MarkCut(old(Content()), SideBySide(str[..sourceLen], spaceLen, left));
          return 1;
        }
      }
      StoreSideBySide(str[..sourceLen], spaceLen, left);
      rc := 0;
    }

    method StoreSideBySide(source: string, spaceLen: nat, left: bool)
      requires Valid() && tail + |source| + spaceLen < sizeReal
      modifies this`tail, data
      ensures Valid() && Content() == old(Content()) + SideBySide(source, spaceLen, left)
    {
      if left {
        StoreBoth(source, Repeat(' ', spaceLen));
      } else {
        StoreBoth(Repeat(' ', spaceLen), source);
      }
    }
  }

  /** A text with blanks after or before it. */
  function SideBySide(source: string, spaceLen: nat, left: bool): (r: string)
    ensures |r| == |source| + spaceLen
  {
    if left then source + Repeat(' ', spaceLen) else Repeat(' ', spaceLen) + source
  }

  lemma AdjustedIs(str: string, left: bool, inWidth: nat, outWidth: nat, sourceLen: nat, spaceLen: nat)
    requires sourceLen == if outWidth == 0 || |str| < outWidth then |str| else outWidth
    requires spaceLen == if inWidth != 0 && sourceLen < inWidth then inWidth - sourceLen else 0
    ensures Adjusted(str, left, inWidth, outWidth) == SideBySide(str[..sourceLen], spaceLen, left)
  {
    assert str[..|str|] == str;
  }

  /** The text cut to its width, and blanks up to the other: behind it with left, else in front. */
  lemma AdjustedMeans(str: string, left: bool, inWidth: nat, outWidth: nat)
    ensures var r := Adjusted(str, left, inWidth, outWidth);
      var n := if outWidth == 0 || |str| < outWidth then |str| else outWidth;
      && |r| == (if inWidth > n then inWidth else n)
      && (left ==> r[..n] == str[..n] && forall i :: n <= i < |r| ==> r[i] == ' ')
      && (!left ==> r[|r| - n..] == str[..n] && forall i :: 0 <= i < |r| - n ==> r[i] == ' ')
  {
    assert str[..|str|] == str;
  }

  /** How much of the text and of the blanks fits into too little room. */
  method Shorten(str: string, left: bool, sourceLen: nat, spaceLen: nat, room: nat)
    returns (sourceLen': nat, spaceLen': nat)
    requires sourceLen <= |str| && room < sourceLen + spaceLen
    ensures sourceLen' <= sourceLen && sourceLen' + spaceLen' == room
    ensures SideBySide(str[..sourceLen'], spaceLen', left) == SideBySide(str[..sourceLen], spaceLen, left)[..room]
  {
    sourceLen', spaceLen' := sourceLen, spaceLen;
    if left {
      if sourceLen < room {
        spaceLen' := room - sourceLen;
      } else {
        sourceLen' := room;
        spaceLen' := 0;
      }
    } else {
      if spaceLen < room {
        sourceLen' := room - spaceLen;
      } else {
        spaceLen' := room;
        sourceLen' := 0;
      }
    }
  }

  lemma QuotientShrinks(n: nat, base: nat)
    requires 2 <= base
    ensures n % base < base && (n < base ==> n % base == n)
    ensures n >= base ==> n / base < n
  {
    if n >= base {
      TwiceAtLeast(n, base);
      DivideBelow(n, base, n);
    }
  }

  lemma TwiceAtLeast(n: nat, base: nat)
    requires 2 <= base && n > 0
    ensures n < base * n
  {
    assert (base - 2) * n >= 0;
  }

  /** The last digit of a numeral, and the numeral in front of it. */
  lemma NumeralStep(n: nat, base: nat, rest: string)
    requires 2 <= base <= 16
    ensures var front := if n < base then "" else Numeral(n / base, base);
      && Numeral(n, base) + rest == front + ([Digit(n % base)] + rest)
      && |Numeral(n, base)| == |front| + 1
  {
    var front := if n < base then "" else Numeral(n / base, base);
    QuotientShrinks(n, base);
    assert Numeral(n, base) == front + [Digit(n % base)];
  }

  /** One round of the digit loop: the last digit, the quotient, and whether it goes on. */
  method NextDigit(n: nat, base: nat, ghost rest: string) returns (digit: char, quotient: nat, more: bool)
    requires 2 <= base <= 16
    ensures var front := if more then Numeral(quotient, base) else "";
      && Numeral(n, base) + rest == front + ([digit] + rest)
      && |Numeral(n, base)| == |front| + 1
    ensures more ==> quotient < n
  {
    QuotientShrinks(n, base);
    NumeralStep(n, base, rest);
    digit, quotient, more := Digit(n % base), n / base, n >= base;
  }

  /** The digit loop: digits from the last to the first into the end of a scratch array. */
  method Convert(n0: nat, base: nat, len: nat) returns (digits: string)
    requires 2 <= base <= 16 && len > 0 && n0 < Pow(base, len)
    ensures digits == Numeral(n0, base)
  {
    NumeralLength(n0, base, len);
    assert "" + Numeral(n0, base) == Numeral(n0, base);
    var tmp := new char[len];
    var p, n, more := len, n0, true;
    while more
      invariant 0 <= p <= len && n >= 0
      invariant more ==> |Numeral(n, base)| <= p
      invariant Numeral(n0, base) == (if more then Numeral(n, base) else "") + tmp[p..]
      decreases more, n
    {
      ghost var rest := tmp[p..];
      var digit;
      digit, n, more := NextDigit(n, base, rest);
      p := p - 1;
      tmp[p] := digit;
      assert tmp[p..] == [digit] + rest;
    }
    digits := tmp[p..];
  }

  // Runs of the buffer after a restart: the pieces of its calls, in order.

  ghost function Concat(pieces: seq<string>): string
  {
    if pieces == [] then "" else Concat(pieces[..|pieces| - 1]) + pieces[|pieces| - 1]
  }

  /** The content after the calls, each of which cuts what it finds and adds. */
  ghost function Rendered(pieces: seq<string>, limit: nat, mark: string): string
  {
    if pieces == [] then ""
    else Cut(Rendered(pieces[..|pieces| - 1], limit, mark) + pieces[|pieces| - 1], limit, mark)
  }

  lemma OverlayTwice(s: string, mark: string)
    ensures Overlay(Overlay(s, mark), mark) == Overlay(s, mark)
  {
  }

  lemma CutMore(all: string, piece: string, limit: nat, mark: string)
    ensures Cut(Cut(all, limit, mark) + piece, limit, mark) == Cut(all + piece, limit, mark)
  {
    if limit > 0 && |all| >= limit {
      var kept := Overlay(all[..limit - 1], mark);
      OverlayTwice(all[..limit - 1], mark);
      assert (all + piece)[..limit - 1] == all[..limit - 1];
      if piece == "" {
        assert kept + piece == kept;
      } else {
        assert (kept + piece)[..limit - 1] == kept;
      }
    }
  }

  /** However the message is cut into calls, the buffer holds the whole message, cut once. */
  lemma {:induction false} RenderedIsCut(pieces: seq<string>, limit: nat, mark: string)
    ensures Rendered(pieces, limit, mark) == Cut(Concat(pieces), limit, mark)
  {
    if pieces != [] {
      var front, last := pieces[..|pieces| - 1], pieces[|pieces| - 1];
      RenderedIsCut(front, limit, mark);
      CutMore(Concat(front), last, limit, mark);
    }
  }

  /** The first call that returns 1 is the one that makes the message too long; from then on nothing changes. */
  lemma {:induction false} FullStaysFull(pieces: seq<string>, more: seq<string>, limit: nat, mark: string)
    requires limit > 0 && |Concat(pieces)| >= limit
    ensures |Rendered(pieces, limit, mark)| == limit - 1
    ensures Rendered(pieces + more, limit, mark) == Rendered(pieces, limit, mark)
    decreases more
  {
    RenderedIsCut(pieces, limit, mark);
    if more == [] {
      assert pieces + more == pieces;
    } else {
      var front, last := more[..|more| - 1], more[|more| - 1];
      FullStaysFull(pieces, front, limit, mark);
      assert (pieces + more)[..|pieces + more| - 1] == pieces + front;
      var kept := Rendered(pieces, limit, mark);
      CutMore(Concat(pieces), last, limit, mark);
      assert (Concat(pieces) + last)[..limit - 1] == Concat(pieces)[..limit - 1];
    }
  }

  /** While the message fits, it is there in full; a call returns 1 first when it no longer fits. */
  lemma FirstCut(pieces: seq<string>, piece: string, limit: nat, mark: string)
    requires limit == 0 || |Concat(pieces)| < limit
    ensures Rendered(pieces, limit, mark) == Concat(pieces)
    ensures (limit != 0 && |Rendered(pieces, limit, mark)| + |piece| >= limit)
            <==> (limit != 0 && |Concat(pieces + [piece])| >= limit)
  {
    RenderedIsCut(pieces, limit, mark);
    assert (pieces + [piece])[..|pieces|] == pieces;
  }

  // Runs of calls after a restart.

  datatype Call =
    | Text(str: string)
    | Dec32(n: nat, width: nat)
    | Dec64(n: nat, width: nat)
    | Hex(n: nat, width: nat)
    | Field(str: string, left: bool, inWidth: nat, outWidth: nat)

  predicate InRange(c: Call) {
    match c
    case Dec32(n, _) => n < 0x1_0000_0000
    case Dec64(n, _) => n < 0x1_0000_0000_0000_0000
    case Hex(n, _) => n < 0x1_0000_0000
    case _ => true
  }

  function Piece(c: Call): string {
    match c
    case Text(str) => str
    case Dec32(n, width) => ZeroPadded(Numeral(n, 10), width)
    case Dec64(n, width) => ZeroPadded(Numeral(n, 10), width)
    case Hex(n, width) => ZeroPadded(Numeral(n, 16), width)
    case Field(str, left, inWidth, outWidth) => Adjusted(str, left, inWidth, outWidth)
  }

  function Pieces(cs: seq<Call>): (ps: seq<string>)
    ensures |ps| == |cs|
  {
    seq(|cs|, i requires 0 <= i < |cs| => Piece(cs[i]))
  }

  lemma OneMorePiece(cs: seq<Call>, k: nat)
    requires k < |cs|
    ensures Concat(Pieces(cs[..k + 1])) == Concat(Pieces(cs[..k])) + Piece(cs[k])
  {
    var ps := Pieces(cs[..k + 1]);
    assert ps[..k] == Pieces(cs[..k]);
  }

  /** A cut text is too long for more exactly when the whole text is. */
  lemma CutLength(all: string, piece: string, limit: nat, mark: string)
    requires limit > 0
    ensures |Cut(all, limit, mark)| + |piece| < limit <==> |all + piece| < limit || (piece == "" && |all| >= limit)
  {
  }

  method Print(b: Buf, c: Call) returns (rc: int)
    requires b.Valid() && InRange(c)
    modifies b, b.data
    ensures b.Valid() && (b.data == old(b.data) || fresh(b.data))
    ensures b.Content() == Cut(old(b.Content()) + Piece(c), b.sizeMax, b.mark)
    ensures rc == if b.sizeMax == 0 || |old(b.Content())| + |Piece(c)| < b.sizeMax then 0 else 1
  {
    match c {
      case Text(str) => rc := b.Append(str);
      case Dec32(n, width) => rc := b.PrintDec32(n, width);
      case Dec64(n, width) => rc := b.PrintDec64(n, width);
      case Hex(n, width) => rc := b.PrintHex(n, width);
      case Field(str, left, inWidth, outWidth) => rc := b.AdjustAppend(str, left, inWidth, outWidth);
    }
  }

  /** Do the first k pieces fit? */
  ghost predicate Fitting(cs: seq<Call>, k: nat, limit: nat)
    requires k <= |cs|
  {
    limit == 0 || |Concat(Pieces(cs[..k]))| < limit
  }

  /** A call that adds something returned 0 exactly when the pieces up to its own fit. */
  ghost predicate ReturnsRight(cs: seq<Call>, rcs: seq<int>, limit: nat)
    requires |rcs| <= |cs|
  {
    forall i :: 0 <= i < |rcs| ==> Piece(cs[i]) == "" || (rcs[i] == 0 <==> Fitting(cs, i + 1, limit))
  }

  lemma OneMoreCall(cs: seq<Call>, k: nat, was: string, now: string, rc: int, limit: nat, mark: string)
    requires k < |cs| && was == Cut(Concat(Pieces(cs[..k])), limit, mark)
    requires now == Cut(was + Piece(cs[k]), limit, mark)
    requires rc == if limit == 0 || |was| + |Piece(cs[k])| < limit then 0 else 1
    ensures now == Cut(Concat(Pieces(cs[..k + 1])), limit, mark)
    ensures Piece(cs[k]) == "" || (rc == 0 <==> Fitting(cs, k + 1, limit))
  {
    var all, piece := Concat(Pieces(cs[..k])), Piece(cs[k]);
    OneMorePiece(cs, k);
    CutMore(all, piece, limit, mark);
    if limit > 0 {
      CutLength(all, piece, limit, mark);
    }
  }

  /** The content after the first calls, and what they returned. */
  ghost predicate Printed(cs: seq<Call>, rcs: seq<int>, content: string, limit: nat, mark: string) {
    |rcs| <= |cs| && content == Cut(Concat(Pieces(cs[..|rcs|])), limit, mark) && ReturnsRight(cs, rcs, limit)
  }

  method PrintNext(b: Buf, cs: seq<Call>, rcs: seq<int>) returns (rcs': seq<int>)
    requires b.Valid() && |rcs| < |cs| && InRange(cs[|rcs|]) && Printed(cs, rcs, b.Content(), b.sizeMax, b.mark)
    modifies b, b.data
    ensures b.Valid() && (b.data == old(b.data) || fresh(b.data))
    ensures |rcs'| == |rcs| + 1 && Printed(cs, rcs', b.Content(), b.sizeMax, b.mark)
  {
    ghost var was := b.Content();
    var rc := Print(b, cs[|rcs|]);
    OneMoreCall(cs, |rcs|, was, b.Content(), rc, b.sizeMax, b.mark);
    rcs' := rcs + [rc];
  }

  /**
   * After any run of calls the content is the concatenation of their pieces, cut once; a call that adds something
   * returns 0 exactly when all pieces up to its own fit.
   */
  method PrintAll(b: Buf, cs: seq<Call>) returns (rcs: seq<int>)
    requires b.Valid() && b.Content() == "" && forall i :: 0 <= i < |cs| ==> InRange(cs[i])
    modifies b, b.data
    ensures b.Valid() && IsCut(b.Content(), Concat(Pieces(cs)), b.sizeMax, b.mark)
    ensures |rcs| == |cs| && ReturnsRight(cs, rcs, b.sizeMax)
  {
    rcs := [];
    assert Cut("", b.sizeMax, b.mark) == "";
    while |rcs| < |cs|
      invariant b.Valid() && (b.data == old(b.data) || fresh(b.data))
      invariant Printed(cs, rcs, b.Content(), b.sizeMax, b.mark)
    {
      rcs := PrintNext(b, cs, rcs);
    }
    assert cs[..|rcs|] == cs;
    CutMeans(b.Content(), Concat(Pieces(cs)), b.sizeMax, b.mark);
  }
}
