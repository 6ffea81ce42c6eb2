/**
 * The call-site lookup behind the `<#dump // file:line` header: walk the
 * caller indices 2 to 9, stop at the first frame the
 * runtime cannot report, and return the first frame outside the package
 * (its function name lacks "godump", is unknown, or it sits in a _test.go
 * file), after passing over `skip` such frames.
 */
module Frames {
  import opened Values
  import opened Text
  import Options

  /**
   * What `callerFn(i)` returns: whether the frame exists, the name of its
   * function if the runtime knows it, the file and the line.
   */
  datatype Frame = Frame(ok: bool, funcName: Option<string>, file: string, line: int)

  /** The stack as seen through callerFn: frame `i`, or "no frame" past the end. */
  function FrameAt(stack: seq<Frame>, i: nat): Frame
  {
    if i < |stack| then stack[i] else Frame(false, None, "", 0)
  }

  /** Not the dumper's own code: no function, a function outside the package, or a test file. */
  predicate External(f: Frame)
  {
    f.funcName.None? || !ContainsText(f.funcName.value, "godump") || HasSuffix(f.file, "_test.go")
  }

  /** The external frames from index `i` on, up to the first missing frame or the depth limit. */
  function ExternalFrom(stack: seq<Frame>, i: nat): (r: seq<Frame>)
    ensures forall k :: 0 <= k < |r| ==> External(r[k]) && r[k].ok
    decreases Options.DefaultMaxStackDepth - i
  {
    if i >= Options.DefaultMaxStackDepth || !FrameAt(stack, i).ok then []
    else if External(FrameAt(stack, i)) then [FrameAt(stack, i)] + ExternalFrom(stack, i + 1)
    else ExternalFrom(stack, i + 1)
  }

  /** The frame reported after skipping `skip` external ones (a negative skip counts as none). */
  function Pick(fs: seq<Frame>, skip: int): Option<Frame>
  {
    var k := if skip < 0 then 0 else skip;
    if k < |fs| then Some(fs[k]) else None
  }

  /** Reference meaning: the (skip+1)-th external frame, or none. */
  function Located(stack: seq<Frame>, skip: int): Option<Frame>
  {
    Pick(ExternalFrom(stack, Options.InitialCallerSkip), skip)
  }

  /** `findFirstNonInternalFrame(skip)`: ("", 0) when no frame qualifies. */
  method FindFirstNonInternalFrame(stack: seq<Frame>, skip: int) returns (file: string, line: int)
    ensures Located(stack, skip).Some? ==>
              file == Located(stack, skip).value.file && line == Located(stack, skip).value.line
    ensures Located(stack, skip).None? ==> file == "" && line == 0
  {
    var left := skip;
    var i: nat := Options.InitialCallerSkip;
    while i < Options.DefaultMaxStackDepth
      invariant Options.InitialCallerSkip <= i <= Options.DefaultMaxStackDepth
      invariant Pick(ExternalFrom(stack, i), left) == Located(stack, skip)
      decreases Options.DefaultMaxStackDepth - i
    {
      var f := FrameAt(stack, i);
      if !f.ok {
        break;
      }
      if External(f) {
        if left > 0 {
          left := left - 1;
          i := i + 1;
          continue;
        }
        return f.file, f.line;
      }
      i := i + 1;
    }
    return "", 0;
  }

  /** A reported frame is a real, external frame among those inspected. */
  lemma ReportedIsExternal(stack: seq<Frame>, skip: int)
    requires Located(stack, skip).Some?
    ensures External(Located(stack, skip).value) && Located(stack, skip).value.ok
  {
  }

  /** A frame of the package's own non-test code is never the first candidate. */
  lemma {:induction false} InternalFramesPassedOver(stack: seq<Frame>, i: nat)
    requires i < Options.DefaultMaxStackDepth && FrameAt(stack, i).ok && !External(FrameAt(stack, i))
    ensures ExternalFrom(stack, i) == ExternalFrom(stack, i + 1)
  {
  }

  /** Skipping one more frame reports the next external frame. */
  lemma SkipMovesOn(stack: seq<Frame>, skip: nat)
    ensures var fs := ExternalFrom(stack, Options.InitialCallerSkip);
            skip + 1 < |fs| ==> Located(stack, skip + 1) == Some(fs[skip + 1])
  {
  }

  const HeaderPrefix: string := "<#dump // "

  /** `printDumpHeader`: nothing when the frame's file is empty; otherwise the path (relative when possible) and line. */
  function Header(file: string, line: int, rel: Option<string>): (r: string)
    ensures file == "" <==> r == ""
  {
    if file == "" then "" else HeaderPrefix + (if rel.Some? then rel.value else file) + ":" + Decimal(line) + "\n"
  }

  /** Position of the last `c` in `s`, or -1. */
  function LastIndex(s: string, c: char): (k: int)
    ensures -1 <= k < |s|
    ensures k >= 0 ==> s[k] == c && c !in s[k + 1..]
    ensures k < 0 ==> c !in s
  {
    if |s| == 0 then -1
    else if s[|s| - 1] == c then |s| - 1
    else
      var k := LastIndex(s[..|s| - 1], c);
      assert k >= 0 ==> s[k + 1..] == s[..|s| - 1][k + 1..] + [s[|s| - 1]];
      assert k < 0 ==> s == s[..|s| - 1] + [s[|s| - 1]];
      k
  }

  /** Reads a header line back: the path before the last colon and the line number after it. */
  function ParseHeader(h: string): (string, int)
  {
    if |h| < |HeaderPrefix| + 1 || h[..|HeaderPrefix|] != HeaderPrefix || h[|h| - 1] != '\n' then ("", 0)
    else
      var body := h[|HeaderPrefix|..|h| - 1];
      var k := LastIndex(body, ':');
      if k < 0 then ("", 0) else (body[..k], ParseDecimal(body[k + 1..]))
  }

  lemma NoColonInDecimal(i: int)
    ensures ':' !in Decimal(i)
  {
    var d := Decimal(i);
    if i < 0 {
      assert d == "-" + Digits(-i, 10);
      assert forall j :: 1 <= j < |d| ==> d[j] == Digits(-i, 10)[j - 1];
    }
    assert forall j :: 0 <= j < |d| ==> d[j] != ':';
  }

  /** The last colon of `path:d` is the one before `d` when `d` has none. */
  lemma SplitAtLastColon(path: string, d: string)
    requires ':' !in d
    ensures var body := path + ":" + d;
            LastIndex(body, ':') == |path| && body[..|path|] == path && body[|path| + 1..] == d
  {
    var body := path + ":" + d;
    assert body == (path + ":") + d;
    LastIndexPastTail(path + ":", d, ':');
    assert body[|path| + 1..] == d;
    assert body[..|path|] == path;
  }

  /** Text after the last `c` that holds no `c` leaves its position unchanged. */
  lemma {:induction false} LastIndexPastTail(s: string, d: string, c: char)
    requires c !in d
    ensures LastIndex(s + d, c) == LastIndex(s, c)
    decreases |d|
  {
    if |d| == 0 {
      assert s + d == s;
    } else {
      var t := s + d;
      assert t[|t| - 1] == d[|d| - 1];
      assert t[..|t| - 1] == s + d[..|d| - 1];
      LastIndexPastTail(s, d[..|d| - 1], c);
    }
  }

  /** Stripping the prefix and the newline gives back the body. */
  lemma Unwrap(body: string)
    ensures var h := HeaderPrefix + body + "\n";
            |h| >= |HeaderPrefix| + 1 && h[..|HeaderPrefix|] == HeaderPrefix && h[|h| - 1] == '\n' &&
            h[|HeaderPrefix|..|h| - 1] == body
  {
    var h := HeaderPrefix + body + "\n";
    assert h[..|HeaderPrefix|] == HeaderPrefix;
    assert h[|HeaderPrefix|..|h| - 1] == body;
  }

  /** Any header-shaped line whose number part has no colon reads back as its parts. */
  lemma ParseWrapped(path: string, d: string)
    requires ':' !in d
    ensures ParseHeader(HeaderPrefix + (path + ":" + d) + "\n") == (path, ParseDecimal(d))
  {
    Unwrap(path + ":" + d);
    SplitAtLastColon(path, d);
  }

  /** The header names the reported file (or its relative path) and line, and reads back as such. */
  lemma HeaderRoundTrip(file: string, line: int, rel: Option<string>)
    requires file != ""
    ensures var path := if rel.Some? then rel.value else file;
            ParseHeader(Header(file, line, rel)) == (path, line)
  {
    var path := if rel.Some? then rel.value else file;
    assert Header(file, line, rel) == HeaderPrefix + (path + ":" + Decimal(line)) + "\n";
    NoColonInDecimal(line);
    ParseWrapped(path, Decimal(line));
    DecimalRoundTrip(line);
  }
}
