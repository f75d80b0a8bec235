/**
 The chat stream reader (frontend/src/chat-stream.ts): one JSON header line of at most
 8192 units, then plain text, cut into chunks anywhere. Decoding of UTF-8 and JSON are
 not interpreted: chunks are decoded text and `parse` gives the session id of a header.
 */
module ChatStream {
  import opened Common
  import opened ReadingSearch
  import ReadingSearchText

  const HEADER_LIMIT := 8192
  const ID_LIMIT := 256

  /** `None`: not JSON; `Some(None)`: no string `session_id`. */
  type Parser = Str -> Option<Option<Str>>

  /** The two callbacks. */
  datatype Call = OnSession(id: Str) | OnText(text: Str)

  /** Index of the first newline, or the length. */
  function NewlineAt(s: Str): (n: nat)
    ensures n <= |s|
  {
    if s == [] || s[0] == NEWLINE then 0 else 1 + NewlineAt(s[1..])
  }

  /** The session id a header line is accepted with. */
  function SessionOf(parse: Parser, line: Str): Option<Str> {
    match parse(line)
    case Some(Some(id)) => if Trim(id) == [] || |id| > ID_LIMIT then None else Some(id)
    case _ => None
  }

  datatype State = State(header: Str, hasHeader: bool, calls: seq<Call>)

  function TextCall(text: Str): seq<Call> {
    if text == [] then [] else [OnText(text)]
  }

  /** `consume`; `None` is the error `invalid_stream_header`. */
  function Consume(parse: Parser, st: State, text: Str): Option<State> {
    if st.hasHeader then Some(st.(calls := st.calls + TextCall(text)))
    else
      var header := st.header + text;
      var n := NewlineAt(header);
      if n > HEADER_LIMIT then None
      else if n == |header| then Some(st.(header := header))
      else
        match SessionOf(parse, header[..n])
        case None => None
        case Some(id) => Some(State([], true, st.calls + [OnSession(id)] + TextCall(header[n + 1..])))
  }

  class Reader {
    var header: Str
    var hasHeader: bool
    var calls: seq<Call>

    function View(): State reads this { State(header, hasHeader, calls) }

    constructor ()
      ensures View() == State([], false, [])
    {
      header, hasHeader, calls := [], false, [];
    }

    method ConsumeChunk(parse: Parser, text: Str) returns (ok: bool)
      modifies this
      ensures ok <==> Consume(parse, old(View()), text).Some?
      ensures ok ==> View() == Consume(parse, old(View()), text).value
      ensures !ok ==> calls == old(calls)
    {
      if hasHeader {
        if text != [] { calls := calls + [OnText(text)]; }
        return true;
      }
      header := header + text;
      var newline := NewlineAt(header);
      if newline > HEADER_LIMIT { return false; }
      if newline == |header| { return true; }
      var meta := SessionOf(parse, header[..newline]);
      if meta.None? { return false; }
      hasHeader := true;
      calls := calls + [OnSession(meta.value)];
      var remainder := header[newline + 1..];
      header := [];
      if remainder != [] { calls := calls + [OnText(remainder)]; }
      return true;
    }

    /**
     The read loop over the decoded chunks; the last one is what the decoder flushes.
     The outcome is that of a one-shot parse of the whole text.
     */
    method ReadAll(parse: Parser, chunks: seq<Str>) returns (ok: bool)
      requires View() == State([], false, [])
      modifies this
      ensures ok <==> OneShot(parse, Concat(chunks)).Some?
      ensures ok ==> Delivered(calls, OneShot(parse, Concat(chunks)).value)
      ensures !ok ==> calls == []
    {
      assert chunks[..|chunks|] == chunks;
      for k := 0 to |chunks|
        invariant Streaming(parse, View(), Concat(chunks[..k]))
      {
        assert chunks[..k + 1][..k] == chunks[..k];
        ConsumeStreams(parse, View(), Concat(chunks[..k]), chunks[k]);
        ConcatExtends(chunks, k + 1);
        var good := ConsumeChunk(parse, chunks[k]);
        if !good {
          HopelessStays(parse, Concat(chunks[..k]) + chunks[k], Concat(chunks));
          return false;
        }
      }
      return hasHeader;
    }
  }

  // ------------------------------------------------------------- one-shot parse

  datatype Chat = Chat(id: Str, text: Str)

  /** The whole text at once. */
  function OneShot(parse: Parser, all: Str): Option<Chat> {
    var n := NewlineAt(all);
    if n == |all| || n > HEADER_LIMIT then None
    else
      match SessionOf(parse, all[..n])
      case None => None
      case Some(id) => Some(Chat(id, all[n + 1..]))
  }

  function Concat(chunks: seq<Str>): Str {
    if chunks == [] then [] else Concat(chunks[..|chunks| - 1]) + chunks[|chunks| - 1]
  }

  function Texts(calls: seq<Call>): Str {
    if calls == [] then []
    else Texts(calls[..|calls| - 1]) + if calls[|calls| - 1].OnText? then calls[|calls| - 1].text else []
  }

  /** The session first and once, then only non-empty text that adds up to the chat's text. */
  ghost predicate Delivered(calls: seq<Call>, chat: Chat) {
    && calls != [] && calls[0] == OnSession(chat.id)
    && (forall k :: 1 <= k < |calls| ==> calls[k].OnText? && calls[k].text != [])
    && Texts(calls) == chat.text
  }

  /** After the text `seen` without an error. */
  ghost predicate Streaming(parse: Parser, st: State, seen: Str) {
    if st.hasHeader then OneShot(parse, seen).Some? && Delivered(st.calls, OneShot(parse, seen).value)
    else st.header == seen && st.calls == [] && NewlineAt(seen) == |seen| <= HEADER_LIMIT
  }

  lemma {:induction false} NewlineOfConcat(a: Str, b: Str)
    ensures NewlineAt(a + b) == if NewlineAt(a) < |a| then NewlineAt(a) else |a| + NewlineAt(b)
    decreases |a|
  {
    if a == [] {
      assert a + b == b;
    } else if a[0] != NEWLINE {
      assert (a + b)[1..] == a[1..] + b;
      NewlineOfConcat(a[1..], b);
    }
  }

  lemma {:induction false} ConcatExtends(chunks: seq<Str>, k: nat)
    requires k <= |chunks|
    ensures Concat(chunks[..k]) <= Concat(chunks)
    decreases |chunks| - k
  {
    if k == |chunks| {
      assert chunks[..k] == chunks;
    } else {
      ConcatExtends(chunks, k + 1);
      assert chunks[..k + 1][..k] == chunks[..k];
    }
  }

  lemma DeliverMore(calls: seq<Call>, chat: Chat, text: Str)
    requires Delivered(calls, chat)
    ensures Delivered(calls + TextCall(text), Chat(chat.id, chat.text + text))
  {
    if text == [] {
      assert calls + TextCall(text) == calls && chat.text + text == chat.text;
    } else {
      assert (calls + [OnText(text)])[..|calls|] == calls;
    }
  }

  /** More text after a complete header is more text of the chat. */
  lemma OneShotMore(parse: Parser, seen: Str, text: Str)
    requires OneShot(parse, seen).Some?
    ensures var chat := OneShot(parse, seen).value;
            OneShot(parse, seen + text) == Some(Chat(chat.id, chat.text + text))
  {
    NewlineOfConcat(seen, text);
    var n := NewlineAt(seen);
    assert (seen + text)[..n] == seen[..n] && (seen + text)[n + 1..] == seen[n + 1..] + text;
  }

  /** Behind the header every chunk is text. */
  lemma ConsumeText(parse: Parser, st: State, seen: Str, text: Str)
    requires Streaming(parse, st, seen) && st.hasHeader
    ensures Consume(parse, st, text).Some? && Streaming(parse, Consume(parse, st, text).value, seen + text)
  {
    OneShotMore(parse, seen, text);
    DeliverMore(st.calls, OneShot(parse, seen).value, text);
  }

  /** Inside the header a chunk completes it, extends it or makes it hopeless. */
  lemma ConsumeHeader(parse: Parser, st: State, seen: Str, text: Str)
    requires Streaming(parse, st, seen) && !st.hasHeader
    ensures match Consume(parse, st, text)
            case Some(next) => Streaming(parse, next, seen + text)
            case None => st.calls == [] && Hopeless(parse, seen + text)
  {
    NewlineOfConcat(seen, text);
    var all := seen + text;
    var n := NewlineAt(all);
    if n < |all| && n <= HEADER_LIMIT && SessionOf(parse, all[..n]).Some? {
      var id := SessionOf(parse, all[..n]).value;
      FirstText(id, all[n + 1..]);
      assert st.calls + [OnSession(id)] == [OnSession(id)];
    }
  }

  /** The session, and with it the text behind the header. */
  lemma FirstText(id: Str, text: Str)
    ensures Delivered([OnSession(id)] + TextCall(text), Chat(id, text))
  {
    assert [OnSession(id)][..0] == [];
    assert Texts([OnSession(id)]) == [];
    DeliverMore([OnSession(id)], Chat(id, []), text);
    assert [] + text == text;
  }

  /** One more chunk keeps the state in step with the text seen so far. */
  lemma ConsumeStreams(parse: Parser, st: State, seen: Str, text: Str)
    requires Streaming(parse, st, seen)
    ensures match Consume(parse, st, text)
            case Some(next) => Streaming(parse, next, seen + text)
            case None => st.calls == [] && !st.hasHeader && Hopeless(parse, seen + text)
  {
    if st.hasHeader {
      ConsumeText(parse, st, seen, text);
    } else {
      ConsumeHeader(parse, st, seen, text);
    }
  }

  /** Whatever follows `seen`, there is no acceptable header. */
  predicate Hopeless(parse: Parser, seen: Str) {
    var n := NewlineAt(seen);
    n > HEADER_LIMIT || (n < |seen| && SessionOf(parse, seen[..n]).None?)
  }

  lemma HopelessStays(parse: Parser, seen: Str, all: Str)
    requires Hopeless(parse, seen) && seen <= all
    ensures OneShot(parse, all).None?
  {
    var rest := all[|seen|..];
    assert all == seen + rest;
    NewlineOfConcat(seen, rest);
    var n := NewlineAt(seen);
    assert all[..n] == seen[..n];
  }

  /** A text whose first newline is behind `header`. */
  lemma {:induction false} NewlineEnds(header: Str, text: Str)
    requires NEWLINE !in header
    ensures NewlineAt(header + [NEWLINE] + text) == |header|
    decreases |header|
  {
    if header != [] {
      assert (header + [NEWLINE] + text)[1..] == header[1..] + [NEWLINE] + text;
      NewlineEnds(header[1..], text);
    }
  }

  lemma {:induction false} NewlineSplits(all: Str)
    ensures NEWLINE !in all[..NewlineAt(all)]
    ensures NewlineAt(all) < |all| ==> all[NewlineAt(all)] == NEWLINE
  {
    if all != [] && all[0] != NEWLINE {
      NewlineSplits(all[1..]);
      assert all[..NewlineAt(all)] == [all[0]] + all[1..][..NewlineAt(all[1..])];
    }
  }

  /** At most 256 units that are not all white space. */
  predicate IsId(id: Str) {
    |id| <= 256 && !ReadingSearchText.Blank(id)
  }

  /** Nothing is left of a string by trimming exactly when it is all white space. */
  lemma TrimmedAwayIff(s: Str)
    ensures Trim(s) == [] <==> ReadingSearchText.Blank(s)
  {
    if ReadingSearchText.Blank(s) {
      assert s + [] + [] == s;
      ReadingSearchText.TrimTakesTheEnds(s, [], []);
    }
    if Trim(s) == [] {
      var l := ReadingSearchText.TrimStartParts(s);
      var r := ReadingSearchText.TrimEndParts(TrimStart(s));
      assert s == l + r;
    }
  }

  lemma SessionIff(parse: Parser, line: Str, id: Str)
    ensures SessionOf(parse, line) == Some(id) <==> parse(line) == Some(Some(id)) && IsId(id)
  {
    TrimmedAwayIff(id);
  }

  /** `text` stands behind a header line of at most 8192 units that names the session `id`. */
  ghost predicate IsStream(parse: Parser, all: Str, header: Str, id: Str, text: Str) {
    && all == header + [0xA] + text && 0xA !in header && |header| <= 8192
    && parse(header) == Some(Some(id)) && IsId(id)
  }

  /** The text is accepted with a session and a chat exactly when it is a header line and the chat. */
  lemma OneShotIff(parse: Parser, all: Str, id: Str, text: Str)
    ensures OneShot(parse, all) == Some(Chat(id, text)) <==> exists header :: IsStream(parse, all, header, id, text)
  {
    var n := NewlineAt(all);
    NewlineSplits(all);
    if OneShot(parse, all) == Some(Chat(id, text)) {
      SessionIff(parse, all[..n], id);
      assert all == all[..n] + [all[n]] + all[n + 1..];
      assert IsStream(parse, all, all[..n], id, text);
    }
    if header :| IsStream(parse, all, header, id, text) {
      NewlineEnds(header, text);
      assert all[..n] == header && all[n + 1..] == text;
      SessionIff(parse, header, id);
    }
  }

  // ------------------------------------------------------ independence of the cut

  /** The state after a series of chunks; `None` after the error. */
  function Fold(parse: Parser, chunks: seq<Str>): Option<State> {
    if chunks == [] then Some(State([], false, []))
    else
      match Fold(parse, chunks[..|chunks| - 1])
      case None => None
      case Some(st) => Consume(parse, st, chunks[|chunks| - 1])
  }

  lemma {:induction false} FoldStreams(parse: Parser, chunks: seq<Str>)
    ensures match Fold(parse, chunks)
            case Some(st) => Streaming(parse, st, Concat(chunks))
            case None => Hopeless(parse, Concat(chunks))
  {
    if chunks != [] {
      var init, text := chunks[..|chunks| - 1], chunks[|chunks| - 1];
      FoldStreams(parse, init);
      match Fold(parse, init) {
        case Some(st) => ConsumeStreams(parse, st, Concat(init), text);
        case None =>
          NewlineOfConcat(Concat(init), text);
          assert (Concat(init) + text)[..NewlineAt(Concat(init))] == Concat(init)[..NewlineAt(Concat(init))];
      }
    }
  }

  /** Two ways of cutting the same text give the same session and the same text, or both no header. */
  lemma CutDoesNotMatter(parse: Parser, chunks1: seq<Str>, chunks2: seq<Str>)
    requires Concat(chunks1) == Concat(chunks2)
    ensures var a, b := Fold(parse, chunks1), Fold(parse, chunks2);
            if a.Some? && a.value.hasHeader
            then b.Some? && b.value.hasHeader && Texts(a.value.calls) == Texts(b.value.calls)
                 && a.value.calls != [] && b.value.calls != [] && a.value.calls[0] == b.value.calls[0]
            else b.Some? ==> !b.value.hasHeader
  {
    FoldStreams(parse, chunks1);
    FoldStreams(parse, chunks2);
    if Fold(parse, chunks1).None? { HopelessStays(parse, Concat(chunks1), Concat(chunks1)); }
    if Fold(parse, chunks2).None? { HopelessStays(parse, Concat(chunks2), Concat(chunks2)); }
  }
}
