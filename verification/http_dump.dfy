/**
 * `parseHTTPDump(label, raw)`: turns the text of an HTTP request or response
 * dump into the flat map the debug transport prints. The first line is
 * stored under "Request-Line" (for the label "Request") or "Status"; the
 * header lines up to the first empty line become entries keyed by the
 * trimmed text before their first colon; everything after the empty line is
 * the body, stored trimmed under "Body" when it is not blank. Headers share
 * the map with those three keys.
 */
module HttpDump {
  import opened Text

  /** `strings.TrimRight(line, "\r\n")`. */
  function Clean(line: string): string
  {
    TrimRightCutset(line, {'\r', '\n'})
  }

  /** Where the first line goes. */
  function FirstKey(tag: string): (k: string)
    ensures k == "Request-Line" <==> tag == "Request"
    ensures tag != "Request" ==> k == "Status"
  {
    if tag == "Request" then "Request-Line" else "Status"
  }

  const BodyKey: string := "Body"

  // ---------------------------------------------------------------------
  // Header lines
  // ---------------------------------------------------------------------

  predicate IsHeader(line: string)
  {
    ':' in line
  }

  /** The trimmed text before the first colon (`SplitN(line, ":", 2)[0]`). */
  function Key(line: string): string
    requires IsHeader(line)
  {
    TrimSpace(line[..Find(line, ':')])
  }

  /** The trimmed text after the first colon; later colons belong to the value. */
  function HeaderValue(line: string): string
    requires IsHeader(line)
  {
    TrimSpace(line[Find(line, ':') + 1..])
  }

  /** Text with no white space at either end. */
  predicate Trimmed(s: string)
  {
    |s| == 0 || (!IsSpace(s[0]) && !IsSpace(s[|s| - 1]))
  }

  lemma TrimmedFixed(s: string)
    requires Trimmed(s)
    ensures TrimSpace(s) == s
  {
  }

  lemma TrimLeadingSpace(s: string)
    requires Trimmed(s)
    ensures TrimSpace(" " + s) == s
  {
    assert (" " + s)[1..] == s;
  }

  /**
   * A header line written as `name: value` reads back as that name and value,
   * whatever the value holds (colons included), as long as the name has no
   * colon and neither has surrounding white space.
   */
  lemma HeaderLineRoundTrip(name: string, value: string)
    requires ':' !in name && Trimmed(name) && Trimmed(value)
    ensures IsHeader(name + ": " + value)
    ensures Key(name + ": " + value) == name && HeaderValue(name + ": " + value) == value
  {
    Regroup(name, ':', ' ', value);
    FirstColon(name, " " + value);
    HeaderLineKey(name, " " + value);
    HeaderLineValue(name, value);
  }

  lemma HeaderLineKey(name: string, rest: string)
    requires ':' !in name && Trimmed(name)
    ensures IsHeader(name + ":" + rest) && Key(name + ":" + rest) == name
  {
    FirstColon(name, rest);
    TrimmedFixed(name);
  }

  lemma HeaderLineValue(name: string, value: string)
    requires ':' !in name && Trimmed(value)
    ensures IsHeader(name + ":" + (" " + value)) && HeaderValue(name + ":" + (" " + value)) == value
  {
    FirstColon(name, " " + value);
    TrimLeadingSpace(value);
  }

  /** The first colon of `name:rest` is the one after `name` when `name` has none. */
  lemma FirstColon(name: string, rest: string)
    requires ':' !in name
    ensures var line := name + ":" + rest;
            ':' in line && Find(line, ':') == |name| && line[..|name|] == name && line[|name| + 1..] == rest
  {
    var line := name + ":" + rest;
    assert line[|name|] == ':';
    assert forall i :: 0 <= i < |name| ==> line[i] == name[i];
    var k := Find(line, ':');
    assert line[..|name|] == name;
    assert line[|name| + 1..] == rest;
  }

  // ---------------------------------------------------------------------
  // Appending one element, stated once over any element type
  // ---------------------------------------------------------------------

  lemma TakeSnoc<T>(s: seq<T>, x: T, k: nat)
    requires k <= |s|
    ensures (s + [x])[..k] == s[..k]
  {
  }

  lemma DropSnoc<T>(s: seq<T>, x: T, k: nat)
    requires k <= |s|
    ensures (s + [x])[k..] == s[k..] + [x]
  {
  }

  lemma Regroup<T>(a: seq<T>, x: T, y: T, c: seq<T>)
    ensures a + [x, y] + c == a + [x] + ([y] + c)
  {
  }

  lemma Whole<T>(s: seq<T>)
    ensures s[..|s|] == s && s[|s|..] == []
  {
  }

  lemma Snoc<T>(s: seq<T>)
    requires |s| > 0
    ensures s == s[..|s| - 1] + [s[|s| - 1]]
  {
  }

  lemma ButLast<T>(s: seq<T>, x: T)
    ensures (s + [x])[..|s|] == s && (s + [x])[|s|] == x
  {
  }

  // ---------------------------------------------------------------------
  // From header lines to the header map
  // ---------------------------------------------------------------------

  /** The name and value a header line contributes. */
  function Field(line: string): (string, string)
    requires IsHeader(line)
  {
    (Key(line), HeaderValue(line))
  }

  /** The pairs of the header lines among `hs`, in order; a line without a colon contributes none. */
  function Fields(hs: seq<string>): seq<(string, string)>
  {
    if |hs| == 0 then []
    else
      var before := Fields(hs[..|hs| - 1]);
      var line := hs[|hs| - 1];
      if IsHeader(line) then before + [Field(line)] else before
  }

  /** Pairs into a map, a later pair overriding an earlier one with the same name. */
  function Collect<K, V>(ps: seq<(K, V)>): map<K, V>
  {
    if |ps| == 0 then map[] else Collect(ps[..|ps| - 1])[ps[|ps| - 1].0 := ps[|ps| - 1].1]
  }

  /** The header entries of `hs` (`headers[key] = value` for each header line in turn). */
  function HeaderMap(hs: seq<string>): map<string, string>
  {
    Collect(Fields(hs))
  }

  lemma CollectSnoc<K, V>(ps: seq<(K, V)>, p: (K, V))
    ensures Collect(ps + [p]) == Collect(ps)[p.0 := p.1]
  {
    ButLast(ps, p);
  }

  /** The keys of the map are the names of the pairs. */
  lemma {:induction false} CollectKeys<K, V>(ps: seq<(K, V)>, k: K)
    ensures k in Collect(ps) <==> exists p :: p in ps && p.0 == k
    decreases |ps|
  {
    if |ps| > 0 {
      var before := ps[..|ps| - 1];
      CollectKeys(before, k);
      Snoc(ps);
      if exists p :: p in ps && p.0 == k {
        var p :| p in ps && p.0 == k;
        assert p in before || p == ps[|ps| - 1];
      }
    }
  }

  /** The last pair with a given name decides its value. */
  lemma {:induction false} CollectLastWins<K, V>(ps: seq<(K, V)>, j: nat)
    requires j < |ps| && forall i :: j < i < |ps| ==> ps[i].0 != ps[j].0
    ensures ps[j].0 in Collect(ps) && Collect(ps)[ps[j].0] == ps[j].1
    decreases |ps|
  {
    if j < |ps| - 1 {
      var before := ps[..|ps| - 1];
      assert before[j] == ps[j];
      CollectLastWins(before, j);
    }
  }

  /** Every header line contributes its pair. */
  lemma {:induction false} FieldsFromLines(hs: seq<string>, i: nat)
    requires i < |hs| && IsHeader(hs[i])
    ensures Field(hs[i]) in Fields(hs)
    decreases |hs|
  {
    if i < |hs| - 1 {
      var before := hs[..|hs| - 1];
      assert before[i] == hs[i];
      FieldsFromLines(before, i);
    }
  }

  /** Every pair comes from a header line. */
  lemma {:induction false} FieldsToLines(hs: seq<string>, p: (string, string))
    requires p in Fields(hs)
    ensures exists i :: 0 <= i < |hs| && IsHeader(hs[i]) && Field(hs[i]) == p
    decreases |hs|
  {
    var before := hs[..|hs| - 1];
    var line := hs[|hs| - 1];
    if p in Fields(before) {
      FieldsToLines(before, p);
      var i :| 0 <= i < |before| && IsHeader(before[i]) && Field(before[i]) == p;
      assert hs[i] == before[i];
    } else {
      assert IsHeader(line) && Field(line) == p;
    }
  }

  /** Some line of `hs` is a header named `k`. */
  predicate Names(hs: seq<string>, k: string)
  {
    exists i :: 0 <= i < |hs| && IsHeader(hs[i]) && Key(hs[i]) == k
  }

  /** Exactly the names of the header lines are keys of the header map. */
  lemma HeaderMapKeys(hs: seq<string>, k: string)
    ensures k in HeaderMap(hs) <==> Names(hs, k)
  {
    CollectKeys(Fields(hs), k);
    if Names(hs, k) {
      var i :| 0 <= i < |hs| && IsHeader(hs[i]) && Key(hs[i]) == k;
      FieldsFromLines(hs, i);
    }
    if k in HeaderMap(hs) {
      var p :| p in Fields(hs) && p.0 == k;
      FieldsToLines(hs, p);
    }
  }

  /** The last header line with a given name decides its value. */
  lemma LastWins(hs: seq<string>, j: nat)
    requires var fs := Fields(hs); j < |fs| && forall i :: j < i < |fs| ==> fs[i].0 != fs[j].0
    ensures var fs := Fields(hs); fs[j].0 in HeaderMap(hs) && HeaderMap(hs)[fs[j].0] == fs[j].1
  {
    CollectLastWins(Fields(hs), j);
  }

  // ---------------------------------------------------------------------
  // The reference reading of a dump
  // ---------------------------------------------------------------------

  /** Index of the first empty line, or |ls| when there is none. */
  function FirstBlank(ls: seq<string>): (b: nat)
    ensures b <= |ls|
  {
    if |ls| == 0 then 0
    else if |ls[0]| == 0 then 0
    else 1 + FirstBlank(ls[1..])
  }

  /** The line at FirstBlank is empty and none before it is. */
  lemma {:induction false} FirstBlankIsFirst(ls: seq<string>)
    ensures FirstBlank(ls) < |ls| ==> |ls[FirstBlank(ls)]| == 0
    ensures forall j :: 0 <= j < FirstBlank(ls) ==> |ls[j]| > 0
    decreases |ls|
  {
    if |ls| > 0 && |ls[0]| > 0 {
      FirstBlankIsFirst(ls[1..]);
      forall j | 0 <= j < FirstBlank(ls) ensures |ls[j]| > 0 {
        if j > 0 {
          assert ls[j] == ls[1..][j - 1];
        }
      }
    }
  }

  /** One more line does not move an empty line already seen... */
  lemma {:induction false} FirstBlankKept(ls: seq<string>, x: string)
    requires FirstBlank(ls) < |ls|
    ensures FirstBlank(ls + [x]) == FirstBlank(ls)
    decreases |ls|
  {
    assert (ls + [x])[0] == ls[0];
    if |ls[0]| > 0 {
      assert (ls + [x])[1..] == ls[1..] + [x];
      FirstBlankKept(ls[1..], x);
    }
  }

  /** ... and without one, the new line is the first empty line exactly when it is empty. */
  lemma {:induction false} FirstBlankAppended(ls: seq<string>, x: string)
    requires FirstBlank(ls) == |ls|
    ensures FirstBlank(ls + [x]) == if |x| == 0 then |ls| else |ls| + 1
    decreases |ls|
  {
    if |ls| == 0 {
      assert [] + [x] == [x];
      assert [x][1..] == [];
    } else {
      assert (ls + [x])[0] == ls[0];
      assert (ls + [x])[1..] == ls[1..] + [x];
      FirstBlankAppended(ls[1..], x);
    }
  }

  /** The body as the builder collects it: each line followed by a newline. */
  function BodyText(ls: seq<string>): string
  {
    if |ls| == 0 then "" else BodyText(ls[..|ls| - 1]) + ls[|ls| - 1] + "\n"
  }

  /** The lines after the first: header lines up to the first empty one, the body after it. */
  function HeaderLines(rest: seq<string>): seq<string>
  {
    rest[..FirstBlank(rest)]
  }

  function BodyLines(rest: seq<string>): seq<string>
  {
    var b := FirstBlank(rest);
    if b < |rest| then rest[b + 1..] else []
  }

  /** Stripping removes exactly the trailing run of CR and LF characters. */
  lemma CleanStrips(line: string)
    ensures var c := Clean(line);
            c <= line && (|c| > 0 ==> c[|c| - 1] != '\r' && c[|c| - 1] != '\n') &&
            forall i :: |c| <= i < |line| ==> line[i] == '\r' || line[i] == '\n'
  {
  }

  /** The cleaned lines of a raw dump. */
  function Lines(raw: string): (ls: seq<string>)
    ensures |ls| >= 1
  {
    var parts := SplitOn(raw, '\n');
    seq(|parts|, i requires 0 <= i < |parts| => Clean(parts[i]))
  }

  /**
   * The payload from its parts: the first line under its key, then every
   * header (which may override it), then the trimmed body if it is not blank.
   */
  function Assemble(firstKey: string, first: string, headers: map<string, string>, body: string): map<string, string>
  {
    var p := map[firstKey := first] + headers;
    var trimmed := TrimSpace(body);
    if trimmed != "" then p[BodyKey := trimmed] else p
  }

  /** What parseHTTPDump means, read off the dump's lines. */
  function Payload(tag: string, raw: string): map<string, string>
  {
    var ls := Lines(raw);
    var rest := ls[1..];
    Assemble(FirstKey(tag), ls[0], HeaderMap(HeaderLines(rest)), BodyText(BodyLines(rest)))
  }

  // ---------------------------------------------------------------------
  // The loop as written
  // ---------------------------------------------------------------------

  /** The loop's state after some lines: headers so far, whether the body has started, the body so far. */
  datatype Scan = Scan(headers: map<string, string>, inBody: bool, body: string)

  /** One iteration for a line after the first. */
  function Step(sc: Scan, line: string): Scan
  {
    if sc.inBody then sc.(body := sc.body + line + "\n")
    else if |line| == 0 then sc.(inBody := true)
    else if IsHeader(line) then sc.(headers := sc.headers[Key(line) := HeaderValue(line)])
    else sc
  }

  function ScanAll(ls: seq<string>): Scan
  {
    if |ls| == 0 then Scan(map[], false, "") else Step(ScanAll(ls[..|ls| - 1]), ls[|ls| - 1])
  }

  /**
   * The loop computes the reference reading: the headers of the lines before
   * the first empty one, body mode exactly when there is an empty line, and
   * the lines after it as the body.
   */
  lemma {:induction false} ScanMeaning(ls: seq<string>)
    ensures ScanAll(ls) == Scan(HeaderMap(HeaderLines(ls)), FirstBlank(ls) < |ls|, BodyText(BodyLines(ls)))
    decreases |ls|
  {
    if |ls| > 0 {
      var n := |ls|;
      var before := ls[..n - 1];
      var last := ls[n - 1];
      Snoc(ls);
      ScanMeaning(before);
      var b := FirstBlank(before);
      if b < n - 1 {
        FirstBlankKept(before, last);
        DropSnoc(before, last, b + 1);
        Whole(before[b + 1..]);
        TakeSnoc(before[b + 1..], last, |before[b + 1..]|);
        TakeSnoc(before, last, b);
      } else {
        FirstBlankAppended(before, last);
        Whole(ls);
        Whole(before);
        if |last| > 0 && IsHeader(last) {
          CollectSnoc(Fields(before), Field(last));
        }
      }
    }
  }

  /** Scanning one more line is one more step. */
  lemma ScanNext(ls: seq<string>, k: nat, k1: nat)
    requires k1 == k + 1 <= |ls|
    ensures ScanAll(ls[..k1]) == Step(ScanAll(ls[..k]), ls[k])
  {
    TakeSnoc(ls[..k], ls[k], k);
    Whole(ls[..k]);
    assert ls[..k1] == ls[..k] + [ls[k]];
  }

  /** The reference reading in terms of the loop's final state. */
  lemma PayloadFromScan(tag: string, raw: string)
    ensures var ls := Lines(raw);
            var sc := ScanAll(ls[1..]);
            Payload(tag, raw) == Assemble(FirstKey(tag), ls[0], sc.headers, sc.body)
  {
    ScanMeaning(Lines(raw)[1..]);
  }

  /** Once every line after the first has been scanned, the loop's state gives the reference reading. */
  lemma Concluded(tag: string, raw: string, rest: seq<string>, seen: nat,
                  headers: map<string, string>, inBody: bool, body: string)
    requires rest == Lines(raw)[1..] && seen == |rest|
    requires Scan(headers, inBody, body) == ScanAll(rest[..seen])
    ensures Payload(tag, raw) == Assemble(FirstKey(tag), Lines(raw)[0], headers, body)
  {
    Whole(rest);
    PayloadFromScan(tag, raw);
  }

  /** The loop body for a line after the first, on the loop's three variables. */
  method NextLine(headers: map<string, string>, inBody: bool, body: string, line: string)
    returns (headers': map<string, string>, inBody': bool, body': string)
    ensures Scan(headers', inBody', body') == Step(Scan(headers, inBody, body), line)
    ensures inBody ==> inBody' && headers' == headers && body' == body + line + "\n"
    ensures !inBody ==> body' == body && (inBody' <==> |line| == 0)
  {
    headers', inBody', body' := headers, inBody, body;
    if inBody {
      body' := body + line + "\n";
      return;
    }
    if |line| == 0 {
      inBody' := true;
      return;
    }
    if ':' in line {
      headers' := headers[Key(line) := HeaderValue(line)];
    }
  }

  /** The loop body for the first line: it goes under "Request-Line" or "Status". */
  method FirstLine(tag: string, line: string) returns (payload: map<string, string>)
    ensures payload.Keys == {FirstKey(tag)} && payload[FirstKey(tag)] == line
  {
    payload := map[];
    if tag == "Request" {
      payload := payload["Request-Line" := line];
    } else {
      payload := payload["Status" := line];
    }
  }

  /** After the loop: headers are copied into the payload, then the trimmed body if not blank. */
  method Finish(payload: map<string, string>, headers: map<string, string>, body: string)
    returns (r: map<string, string>)
    requires |payload.Keys| == 1
    ensures forall k :: k in payload ==> r == Assemble(k, payload[k], headers, body)
  {
    r := payload + headers;
    var trimmed := TrimSpace(body);
    if trimmed != "" {
      r := r[BodyKey := trimmed];
    }
    forall k | k in payload
      ensures r == Assemble(k, payload[k], headers, body)
    {
      AssembleSingleton(payload, k, headers, body, trimmed);
    }
  }

  lemma AssembleSingleton(payload: map<string, string>, k: string, headers: map<string, string>, body: string, trimmed: string)
    requires |payload.Keys| == 1 && k in payload && trimmed == TrimSpace(body)
    ensures Assemble(k, payload[k], headers, body)
            == if trimmed != "" then (payload + headers)[BodyKey := trimmed] else payload + headers
  {
    SingletonMap(payload, k);
  }

  lemma SingletonMap<K, V>(m: map<K, V>, k: K)
    requires |m.Keys| == 1 && k in m
    ensures m == map[k := m[k]]
  {
    if exists k' :: k' in m && k' != k {
      var k' :| k' in m && k' != k;
      assert {k, k'} <= m.Keys;
      assert |{k, k'}| == 2;
      SubsetCard({k, k'}, m.Keys);
    }
  }

  lemma SubsetCard<T>(a: set<T>, b: set<T>)
    requires a <= b
    ensures |a| <= |b|
  {
    if a != {} {
      var x :| x in a;
      SubsetCard(a - {x}, b - {x});
    }
  }

  /** `parseHTTPDump(label, raw)`, iterating the lines as the source does. */
  method ParseHTTPDump(tag: string, raw: string) returns (payload: map<string, string>)
    ensures payload == Payload(tag, raw)
  {
    var parts := SplitOn(raw, '\n');
    ghost var ls := Lines(raw);
    ghost var rest := ls[1..];
    payload := map[];
    var headers: map<string, string> := map[];
    var inBody := false;
    var body := "";
    var i := 0;
    ghost var seen := 0;
    while i < |parts|
      invariant 0 <= i <= |parts| && |ls| == |parts| && |rest| == |parts| - 1
      invariant i > 0 ==> payload == map[FirstKey(tag) := ls[0]]
      invariant i > 0 ==> seen == i - 1 && Scan(headers, inBody, body) == ScanAll(rest[..seen])
      invariant i == 0 ==> payload == map[] && headers == map[] && !inBody && body == ""
      decreases |parts| - i
    {
      var line := Clean(parts[i]);
      assert line == ls[i];
      if i == 0 {
        payload := FirstLine(tag, line);
        assert payload == map[FirstKey(tag) := line];
        assert Scan(headers, inBody, body) == ScanAll(rest[..0]);
        seen, i := 0, i + 1;
        continue;
      }
      assert line == rest[seen];
      ScanNext(rest, seen, i);
      headers, inBody, body := NextLine(headers, inBody, body, line);
      seen, i := i, i + 1;
    }
    Concluded(tag, raw, rest, seen, headers, inBody, body);
    assert FirstKey(tag) in payload && payload.Keys == {FirstKey(tag)};
    payload := Finish(payload, headers, body);
  }

  // ---------------------------------------------------------------------
  // Properties
  // ---------------------------------------------------------------------

  /** The header lines of a dump: after the first line, up to the first empty line. */
  function HeadersOf(raw: string): seq<string>
  {
    HeaderLines(Lines(raw)[1..])
  }

  /** The body text of a dump, before trimming. */
  function BodyOf(raw: string): string
  {
    BodyText(BodyLines(Lines(raw)[1..]))
  }

  lemma PayloadParts(tag: string, raw: string)
    ensures Payload(tag, raw) == Assemble(FirstKey(tag), Lines(raw)[0], HeaderMap(HeadersOf(raw)), BodyOf(raw))
  {
  }

  lemma AssembleKeys(firstKey: string, first: string, headers: map<string, string>, body: string, k: string)
    ensures k in Assemble(firstKey, first, headers, body) <==>
              k == firstKey || k in headers || (k == BodyKey && !AllSpace(body))
  {
  }

  lemma AssembleValues(firstKey: string, first: string, headers: map<string, string>, body: string)
    ensures var p := Assemble(firstKey, first, headers, body);
            (firstKey !in headers && firstKey != BodyKey ==> p[firstKey] == first) &&
            (forall k :: k in headers && (k != BodyKey || AllSpace(body)) ==> p[k] == headers[k]) &&
            (!AllSpace(body) ==> p[BodyKey] == TrimSpace(body))
  {
  }

  /**
   * The keys of the payload: the first-line key, the name of every header
   * line before the first empty line, and "Body" exactly when the body is
   * not blank or a header line is named "Body".
   */
  lemma PayloadKeys(tag: string, raw: string, k: string)
    ensures k in Payload(tag, raw) <==>
              k == FirstKey(tag) || Names(HeadersOf(raw), k) || (k == BodyKey && !AllSpace(BodyOf(raw)))
  {
    PayloadParts(tag, raw);
    AssembleKeys(FirstKey(tag), Lines(raw)[0], HeaderMap(HeadersOf(raw)), BodyOf(raw), k);
    HeaderMapKeys(HeadersOf(raw), k);
  }

  /** Without a header of the same name, the first line is kept as it is (minus trailing CR). */
  lemma FirstLineKept(tag: string, raw: string)
    requires !Names(HeadersOf(raw), FirstKey(tag))
    ensures FirstKey(tag) in Payload(tag, raw)
    ensures Payload(tag, raw)[FirstKey(tag)] == Clean(SplitOn(raw, '\n')[0])
  {
    PayloadParts(tag, raw);
    HeaderMapKeys(HeadersOf(raw), FirstKey(tag));
    AssembleValues(FirstKey(tag), Lines(raw)[0], HeaderMap(HeadersOf(raw)), BodyOf(raw));
  }

  /** A header named like the first-line key replaces the first line (its last such line wins). */
  lemma HeaderShadowsFirstLine(tag: string, raw: string, j: nat)
    requires var fs := Fields(HeadersOf(raw));
             j < |fs| && fs[j].0 == FirstKey(tag) && forall i :: j < i < |fs| ==> fs[i].0 != fs[j].0
    ensures FirstKey(tag) in Payload(tag, raw)
    ensures Payload(tag, raw)[FirstKey(tag)] == Fields(HeadersOf(raw))[j].1
  {
    HeaderValueInPayload(tag, raw, j);
  }

  /** A header keeps the value of its last line, unless it is named "Body" and there is a body. */
  lemma HeaderValueInPayload(tag: string, raw: string, j: nat)
    requires var fs := Fields(HeadersOf(raw));
             j < |fs| && (fs[j].0 != BodyKey || AllSpace(BodyOf(raw))) &&
             forall i :: j < i < |fs| ==> fs[i].0 != fs[j].0
    ensures var f := Fields(HeadersOf(raw))[j];
            f.0 in Payload(tag, raw) && Payload(tag, raw)[f.0] == f.1
  {
    var f := Fields(HeadersOf(raw))[j];
    PayloadParts(tag, raw);
    LastWins(HeadersOf(raw), j);
    AssembleKeys(FirstKey(tag), Lines(raw)[0], HeaderMap(HeadersOf(raw)), BodyOf(raw), f.0);
    AssembleValues(FirstKey(tag), Lines(raw)[0], HeaderMap(HeadersOf(raw)), BodyOf(raw));
  }

  /** A body that is not blank is stored trimmed under "Body", overriding any header of that name. */
  lemma BodyStored(tag: string, raw: string)
    requires !AllSpace(BodyOf(raw))
    ensures BodyKey in Payload(tag, raw) && Payload(tag, raw)[BodyKey] == TrimSpace(BodyOf(raw))
  {
    PayloadParts(tag, raw);
    AssembleKeys(FirstKey(tag), Lines(raw)[0], HeaderMap(HeadersOf(raw)), BodyOf(raw), BodyKey);
    AssembleValues(FirstKey(tag), Lines(raw)[0], HeaderMap(HeadersOf(raw)), BodyOf(raw));
  }

  /** Once an empty line has been seen, further lines never become headers, even when they hold a colon. */
  lemma HeadersEndAtBlank(rest: seq<string>, extra: string)
    requires FirstBlank(rest) < |rest|
    ensures HeaderLines(rest + [extra]) == HeaderLines(rest)
  {
    FirstBlankKept(rest, extra);
    TakeSnoc(rest, extra, FirstBlank(rest));
  }

  /** ... and every such line joins the body. */
  lemma BodyTakesTheRest(rest: seq<string>, extra: string)
    requires FirstBlank(rest) < |rest|
    ensures BodyLines(rest + [extra]) == BodyLines(rest) + [extra]
  {
    var b := FirstBlank(rest);
    FirstBlankKept(rest, extra);
    BodyAfterBlank(rest, b);
    BodyAfterBlank(rest + [extra], b);
    DropSnoc(rest, extra, b + 1);
  }

  lemma BodyAfterBlank(ls: seq<string>, b: nat)
    requires b == FirstBlank(ls) < |ls|
    ensures BodyLines(ls) == ls[b + 1..]
  {
  }
}
