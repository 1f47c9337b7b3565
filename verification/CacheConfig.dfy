/**
 The cache configuration syntax: a comma-separated list such as `local:rw,remote:r`. Errors carry
 a span of byte offsets into the text.
 */
module CacheConfig {
  import opened Wrappers

  datatype Actions = Actions(read: bool, write: bool)

  datatype Config = Config(local: Actions, remote: Actions)

  datatype Span = Span(offset: nat, length: nat)

  datatype Error =
    | DuplicateKeys(text: string, key: string, span: Option<Span>)
    | DuplicateActions(text: string, action: string, span: Option<Span>)
    | InvalidPair(text: string, pair: string, span: Option<Span>)
    | InvalidAction(text: string, c: char, span: Option<Span>)
    | InvalidType(text: string, s: string, span: Option<Span>)
  {
    function AddText(newText: string): Error {
      this.(text := newText)
    }

    function AddSpan(newSpan: Span): Error {
      this.(span := Some(newSpan))
    }

    predicate IsActionError() {
      DuplicateActions? || InvalidAction?
    }
  }

  const NONE := Actions(false, false)

  // ---------- Text ----------

  /** The length of a character in UTF-8. */
  function CharLen(c: char): nat {
    var code := c as int;
    if code < 0x80 then 1 else if code < 0x800 then 2 else if code < 0x10000 then 3 else 4
  }

  function ByteLen(s: string): nat {
    if s == "" then 0 else CharLen(s[0]) + ByteLen(s[1..])
  }

  // Lengths are those of UTF-8, section 3 of RFC 3629.

  /** The bytes that encode one character. */
  function Utf8(c: char): seq<int> {
    var code := c as int;
    if code <= 0x7F then [code]
    else if code <= 0x7FF then [0xC0 + code / 0x40, 0x80 + code % 0x40]
    else if code <= 0xFFFF then [0xE0 + code / 0x1000, 0x80 + code / 0x40 % 0x40, 0x80 + code % 0x40]
    else [0xF0 + code / 0x40000, 0x80 + code / 0x1000 % 0x40, 0x80 + code / 0x40 % 0x40, 0x80 + code % 0x40]
  }

  /** The length of an encoding as its first byte tells it. */
  function LengthByLead(lead: int): nat {
    if lead < 0x80 then 1 else if lead < 0xE0 then 2 else if lead < 0xF0 then 3 else 4
  }

  /** The code that some bytes stand for: the payload of the first byte, and six bits from each other. */
  function Payload(bytes: seq<int>): int {
    if bytes == [] then 0
    else if |bytes| == 1 then bytes[0]
    else 0x40 * Payload(bytes[..|bytes| - 1]) + (bytes[|bytes| - 1] - 0x80)
  }

  function LeadMark(length: nat): int {
    match length case 1 => 0 case 2 => 0xC0 case 3 => 0xE0 case _ => 0xF0
  }

  /** Digits to the base of 64. */
  lemma SixBitGroups(code: nat)
    ensures code == 0x40 * (code / 0x40) + code % 0x40
    ensures code / 0x40 == 0x40 * (code / 0x1000) + code / 0x40 % 0x40
    ensures code / 0x1000 == 0x40 * (code / 0x40000) + code / 0x1000 % 0x40
  {
  }

  lemma PayloadOfGroups(a: int, b: int, c: int, d: int)
    ensures Payload([a]) == a
    ensures Payload([a, 0x80 + b]) == 0x40 * a + b
    ensures Payload([a, 0x80 + b, 0x80 + c]) == 0x40 * (0x40 * a + b) + c
    ensures Payload([a, 0x80 + b, 0x80 + c, 0x80 + d]) == 0x40 * (0x40 * (0x40 * a + b) + c) + d
  {
    PayloadSnoc([a], 0x80 + b);
    PayloadSnoc([a, 0x80 + b], 0x80 + c);
    PayloadSnoc([a, 0x80 + b, 0x80 + c], 0x80 + d);
    assert [a] + [0x80 + b] == [a, 0x80 + b];
    assert [a, 0x80 + b] + [0x80 + c] == [a, 0x80 + b, 0x80 + c];
    assert [a, 0x80 + b, 0x80 + c] + [0x80 + d] == [a, 0x80 + b, 0x80 + c, 0x80 + d];
  }

  /** The bytes without the mark that the first one carries. */
  function Unmarked(bytes: seq<int>): seq<int>
    requires bytes != []
  {
    bytes[0 := bytes[0] - LeadMark(|bytes|)]
  }

  /** An encoding stands for its character. */
  lemma Utf8Decodes(c: char)
    ensures Payload(Unmarked(Utf8(c))) == c as int
  {
    hide Payload;
    var code := c as int;
    SixBitGroups(code);
    PayloadOfGroups(code, 0, 0, 0);
    PayloadOfGroups(code / 0x40, code % 0x40, 0, 0);
    PayloadOfGroups(code / 0x1000, code / 0x40 % 0x40, code % 0x40, 0);
    PayloadOfGroups(code / 0x40000, code / 0x1000 % 0x40, code / 0x40 % 0x40, code % 0x40);
    var plain := Unmarked(Utf8(c));
    assert plain == if code <= 0x7F then [code]
                    else if code <= 0x7FF then [code / 0x40, 0x80 + code % 0x40]
                    else if code <= 0xFFFF then [code / 0x1000, 0x80 + code / 0x40 % 0x40, 0x80 + code % 0x40]
                    else [code / 0x40000, 0x80 + code / 0x1000 % 0x40, 0x80 + code / 0x40 % 0x40, 0x80 + code % 0x40];
  }

  /** The length of a character is that of its encoding, which the first byte announces. */
  lemma CharLenIsUtf8Length(c: char)
    ensures var bytes := Utf8(c);
            && CharLen(c) == |bytes| == LengthByLead(bytes[0]) && 0 <= bytes[0] < 0xF8
            && forall i :: 0 < i < |bytes| ==> 0x80 <= bytes[i] < 0xC0
  {
  }

  function Utf8Text(s: string): seq<int> {
    if s == "" then [] else Utf8(s[0]) + Utf8Text(s[1..])
  }

  /** Offsets and lengths in spans count bytes. */
  lemma {:induction false} ByteLenIsUtf8Length(s: string)
    ensures ByteLen(s) == |Utf8Text(s)|
  {
    hide Utf8, CharLen;
    if s != "" {
      CharLenIsUtf8Length(s[0]);
      ByteLenIsUtf8Length(s[1..]);
    }
  }

  lemma PayloadSnoc(bytes: seq<int>, b: int)
    requires bytes != []
    ensures Payload(bytes + [b]) == 0x40 * Payload(bytes) + (b - 0x80)
  {
    assert (bytes + [b])[..|bytes|] == bytes;
  }

  lemma {:induction false} ByteLenAppend(a: string, b: string)
    ensures ByteLen(a + b) == ByteLen(a) + ByteLen(b)
  {
    if a == "" {
      assert a + b == b;
    } else {
      ByteLenAppend(a[1..], b);
      assert (a + b)[1..] == a[1..] + b;
    }
  }

  /** The segments between the commas; at least one. */
  function Split(s: string): (parts: seq<string>)
    ensures parts != []
  {
    if s == "" then [""]
    else
      var rest := Split(s[1..]);
      if s[0] == ',' then [""] + rest else [[s[0]] + rest[0]] + rest[1..]
  }

  function Join(parts: seq<string>): string {
    if parts == [] then ""
    else if |parts| == 1 then parts[0]
    else parts[0] + "," + Join(parts[1..])
  }

  lemma {:induction false} JoinSplit(s: string)
    ensures Join(Split(s)) == s
  {
    if s != "" {
      JoinSplit(s[1..]);
      var rest := Split(s[1..]);
      if s[0] == ',' {
        assert ([""] + rest)[1..] == rest;
        assert "" + "," + s[1..] == s;
      } else {
        assert ([[s[0]] + rest[0]] + rest[1..])[1..] == rest[1..];
        assert [s[0]] + s[1..] == s;
        if |rest| > 1 {
          assert [s[0]] + rest[0] + "," + Join(rest[1..]) == [s[0]] + (rest[0] + "," + Join(rest[1..]));
        }
      }
    }
  }

  lemma {:induction false} SplitHasNoCommas(s: string)
    ensures forall p :: p in Split(s) ==> ',' !in p
  {
    if s != "" {
      SplitHasNoCommas(s[1..]);
      var rest := Split(s[1..]);
      assert rest[0] in rest;
      assert forall p :: p in rest[1..] ==> p in rest;
    }
  }

  lemma {:induction false} SplitWord(w: string)
    requires ',' !in w
    ensures Split(w) == [w]
  {
    if w != "" {
      SplitWord(w[1..]);
      assert [w[0]] + w[1..] == w;
      assert [w] + [w[1..]][1..] == [w];
    }
  }

  lemma {:induction false} SplitFirst(w: string, s: string)
    requires ',' !in w
    ensures Split(w + "," + s) == [w] + Split(s)
  {
    var t := w + "," + s;
    if w == "" {
      assert t[1..] == s;
    } else {
      SplitFirst(w[1..], s);
      assert t[1..] == w[1..] + "," + s;
      assert [w[0]] + w[1..] == w;
      assert ([w[1..]] + Split(s))[1..] == Split(s);
    }
  }

  /** The text before and after the first colon. */
  function SplitOnce(s: string): (r: Option<(string, string)>)
    ensures r.Some? ==> s == r.value.0 + ":" + r.value.1 && ':' !in r.value.0
    ensures r.None? <==> ':' !in s
  {
    if s == "" then None
    else if s[0] == ':' then Some(("", s[1..]))
    else
      match SplitOnce(s[1..])
      case Some(kv) => Some(([s[0]] + kv.0, kv.1))
      case None => None
  }

  lemma {:induction false} SplitOnceAt(key: string, value: string)
    requires ':' !in key
    ensures SplitOnce(key + ":" + value) == Some((key, value))
  {
    var s := key + ":" + value;
    if key == "" {
      assert s[1..] == value;
    } else {
      SplitOnceAt(key[1..], value);
      assert s[1..] == key[1..] + ":" + value;
      assert [key[0]] + key[1..] == key;
    }
  }

  // ---------- Actions ----------

  function ActionsFrom(s: string, rest: string, cache: Actions): Result<Actions, Error>
    decreases |rest|
  {
    if rest == "" then Ok(cache)
    else if rest[0] == 'r' then
      if cache.read then Err(DuplicateActions(s, "r (read)", None))
      else ActionsFrom(s, rest[1..], cache.(read := true))
    else if rest[0] == 'w' then
      if cache.write then Err(DuplicateActions(s, "w (write)", None))
      else ActionsFrom(s, rest[1..], cache.(write := true))
    else Err(InvalidAction("", rest[0], None))
  }

  function ParseActions(s: string): Result<Actions, Error> {
    ActionsFrom(s, s, NONE)
  }

  method ActionsFromStr(s: string) returns (r: Result<Actions, Error>)
    ensures r == ParseActions(s)
  {
    var cache := Actions(false, false);
    for i := 0 to |s|
      invariant ActionsFrom(s, s[i..], cache) == ParseActions(s)
    {
      assert s[i..][0] == s[i] && s[i..][1..] == s[i + 1..];
      match s[i] {
        case 'r' =>
          if cache.read {
            return Err(DuplicateActions(s, "r (read)", None));
          }
          cache := cache.(read := true);
        case 'w' =>
          if cache.write {
            return Err(DuplicateActions(s, "w (write)", None));
          }
          cache := cache.(write := true);
        case _ =>
          return Err(InvalidAction("", s[i], None));
      }
    }
    r := Ok(cache);
  }

  /** A list of the letters r and w without repetition. */
  ghost predicate IsActionList(s: string) {
    (forall c :: c in s ==> c == 'r' || c == 'w') && Distinct(s)
  }

  function LettersOf(s: string): Actions {
    Actions('r' in s, 'w' in s)
  }

  lemma ActionListGrows(s: string)
    requires s != ""
    ensures IsActionList(s) <==> IsActionList(s[1..]) && (s[0] == 'r' || s[0] == 'w') && s[0] !in s[1..]
    ensures forall c :: c in s <==> c == s[0] || c in s[1..]
  {
    var tail := s[1..];
    assert s == [s[0]] + tail;
    assert forall i :: 0 < i < |s| ==> s[i] == tail[i - 1];
    if IsActionList(s) {
      forall i, j | 0 <= i < j < |tail| ensures tail[i] != tail[j] {
        assert s[i + 1] != s[j + 1];
      }
      forall k | 0 <= k < |tail| ensures tail[k] != s[0] {
        assert s[k + 1] != s[0];
      }
      assert s[0] in s && forall c :: c in tail ==> c in s;
    }
    if Distinct(tail) && s[0] !in tail {
      forall i, j | 0 <= i < j < |s| ensures s[i] != s[j] {
        assert s[j] == tail[j - 1];
      }
    }
  }

  lemma {:induction false} ActionsFromMeans(s: string, rest: string, cache: Actions)
    ensures ActionsFrom(s, rest, cache).Ok? <==>
              IsActionList(rest) && !(cache.read && 'r' in rest) && !(cache.write && 'w' in rest)
    ensures ActionsFrom(s, rest, cache).Ok? ==>
              ActionsFrom(s, rest, cache).value == Actions(cache.read || 'r' in rest, cache.write || 'w' in rest)
    ensures ActionsFrom(s, rest, cache).Err? ==>
              ActionsFrom(s, rest, cache).error.IsActionError()
    decreases |rest|
  {
    if rest != "" {
      var tail := rest[1..];
      assert rest == [rest[0]] + tail;
      ActionsFromMeans(s, tail, cache.(read := true));
      ActionsFromMeans(s, tail, cache.(write := true));
      ActionListGrows(rest);
    }
  }

  /** Actions are read exactly from lists of r and w without repetition. */
  lemma ParseActionsMeans(s: string)
    ensures ParseActions(s).Ok? <==> IsActionList(s)
    ensures ParseActions(s).Ok? ==> ParseActions(s).value == LettersOf(s)
    ensures ParseActions(s).Err? ==> ParseActions(s).error.IsActionError()
  {
    ActionsFromMeans(s, s, NONE);
  }

  // ---------- The list ----------

  datatype Scan = Scan(idx: nat, seenLocal: bool, seenRemote: bool, cache: Config)

  /** One segment, given what was scanned before it. */
  function ParseSegment(s: string, action: string, st: Scan): Result<Scan, Error> {
    match SplitOnce(action)
    case None => Err(InvalidPair(s, action, Some(Span(st.idx, ByteLen(action)))))
    case Some((key, value)) =>
      var next := st.(idx := st.idx + ByteLen(action) + 1);
      if key == "local" then
        if st.seenLocal then Err(DuplicateKeys(s, "local", Some(Span(st.idx, ByteLen(key)))))
        else
          match ParseActions(value)
          case Ok(actions) => Ok(next.(seenLocal := true, cache := st.cache.(local := actions)))
          case Err(e) => Err(e.AddText(s).AddSpan(Span(st.idx + ByteLen(key) + 1, ByteLen(key))))
      else if key == "remote" then
        if st.seenRemote then Err(DuplicateKeys(s, "remote", Some(Span(st.idx, ByteLen(key)))))
        else
          match ParseActions(value)
          case Ok(actions) => Ok(next.(seenRemote := true, cache := st.cache.(remote := actions)))
          case Err(e) => Err(e.AddText(s).AddSpan(Span(st.idx + ByteLen(key) + 1, ByteLen(value))))
      else Err(InvalidType(s, key, Some(Span(st.idx, ByteLen(key)))))
  }

  function ParseSegments(s: string, segments: seq<string>, st: Scan): Result<Config, Error> {
    if segments == [] then Ok(st.cache)
    else
      match ParseSegment(s, segments[0], st)
      case Ok(next) => ParseSegments(s, segments[1..], next)
      case Err(e) => Err(e)
  }

  lemma ParseSegmentsStep(s: string, segments: seq<string>, i: nat, st: Scan)
    requires i < |segments|
    ensures ParseSegments(s, segments[i..], st) ==
            match ParseSegment(s, segments[i], st)
            case Ok(next) => ParseSegments(s, segments[i + 1..], next)
            case Err(e) => Err(e)
  {
    assert segments[i..][0] == segments[i] && segments[i..][1..] == segments[i + 1..];
  }

  lemma ParseSegmentsDone(s: string, segments: seq<string>, st: Scan)
    ensures ParseSegments(s, segments[|segments|..], st) == Ok(st.cache)
  {
  }

  const START := Scan(0, false, false, Config(NONE, NONE))

  function Parse(s: string): Result<Config, Error> {
    if s == "" then Ok(Config(NONE, NONE)) else ParseSegments(s, Split(s), START)
  }

  method FromStr(s: string) returns (r: Result<Config, Error>)
    ensures r == Parse(s)
  {
    hide ByteLen, Split, SplitOnce, ParseActions, ParseSegments;
    var cache := Config(Actions(false, false), Actions(false, false));
    if s == "" {
      return Ok(cache);
    }
    var seenLocal, seenRemote := false, false;
    var idx: nat := 0;
    var segments := Split(s);
    assert segments[0..] == segments;
    for i := 0 to |segments|
      invariant ParseSegments(s, segments[i..], Scan(idx, seenLocal, seenRemote, cache)) == Parse(s)
    {
      var action := segments[i];
      ParseSegmentsStep(s, segments, i, Scan(idx, seenLocal, seenRemote, cache));
      var pair := SplitOnce(action);
      if pair.None? {
        return Err(InvalidPair(s, action, Some(Span(idx, ByteLen(action)))));
      }
      var key, value := pair.value.0, pair.value.1;
      if key == "local" {
        if seenLocal {
          return Err(DuplicateKeys(s, "local", Some(Span(idx, ByteLen(key)))));
        }
        seenLocal := true;
        var actions := ActionsFromStr(value);
        if actions.Err? {
          return Err(actions.error.AddText(s).AddSpan(Span(idx + ByteLen(key) + 1, ByteLen(key))));
        }
        cache := cache.(local := actions.value);
      } else if key == "remote" {
        if seenRemote {
          return Err(DuplicateKeys(s, "remote", Some(Span(idx, ByteLen(key)))));
        }
        seenRemote := true;
        var actions := ActionsFromStr(value);
        if actions.Err? {
          return Err(actions.error.AddText(s).AddSpan(Span(idx + ByteLen(key) + 1, ByteLen(value))));
        }
        cache := cache.(remote := actions.value);
      } else {
        return Err(InvalidType(s, key, Some(Span(idx, ByteLen(key)))));
      }
      idx := idx + ByteLen(action) + 1;
    }
    ParseSegmentsDone(s, segments, Scan(idx, seenLocal, seenRemote, cache));
    r := Ok(cache);
  }

  // ---------- The accepted language ----------

  function KeyOf(segment: string): string {
    match SplitOnce(segment)
    case Some(kv) => kv.0
    case None => ""
  }

  function ValueOf(segment: string): string {
    match SplitOnce(segment)
    case Some(kv) => kv.1
    case None => ""
  }

  /** `local:` or `remote:` followed by a list of actions. */
  ghost predicate IsEntry(segment: string) {
    && SplitOnce(segment).Some?
    && (KeyOf(segment) == "local" || KeyOf(segment) == "remote")
    && IsActionList(ValueOf(segment))
  }

  ghost predicate AreEntries(segments: seq<string>) {
    && (forall i :: 0 <= i < |segments| ==> IsEntry(segments[i]))
    && (forall i, j :: 0 <= i < j < |segments| ==> KeyOf(segments[i]) != KeyOf(segments[j]))
  }

  ghost predicate Fresh(segments: seq<string>, st: Scan) {
    forall i :: 0 <= i < |segments| ==>
      !(st.seenLocal && KeyOf(segments[i]) == "local") && !(st.seenRemote && KeyOf(segments[i]) == "remote")
  }

  /** The actions given for `key`, if any segment has that key. */
  function Given(segments: seq<string>, key: string, default: Actions): Actions {
    if segments == [] then default
    else if KeyOf(segments[0]) == key then LettersOf(ValueOf(segments[0]))
    else Given(segments[1..], key, default)
  }

  lemma ParseSegmentMeans(s: string, action: string, st: Scan)
    ensures ParseSegment(s, action, st).Ok? <==> IsEntry(action) && Fresh([action], st)
    ensures ParseSegment(s, action, st).Ok? ==>
              var next := ParseSegment(s, action, st).value;
              && next.idx == st.idx + ByteLen(action) + 1
              && next.seenLocal == (st.seenLocal || KeyOf(action) == "local")
              && next.seenRemote == (st.seenRemote || KeyOf(action) == "remote")
              && next.cache.local == Given([action], "local", st.cache.local)
              && next.cache.remote == Given([action], "remote", st.cache.remote)
  {
    ParseActionsMeans(ValueOf(action));
    assert [action][0] == action && [action][1..] == [];
  }

  lemma RestIsFresh(segments: seq<string>, st: Scan, next: Scan)
    requires segments != []
    requires next.seenLocal == (st.seenLocal || KeyOf(segments[0]) == "local")
    requires next.seenRemote == (st.seenRemote || KeyOf(segments[0]) == "remote")
    requires AreEntries(segments) && Fresh(segments, st)
    ensures AreEntries(segments[1..]) && Fresh(segments[1..], next)
  {
    hide SplitOnce, IsEntry;
    var rest := segments[1..];
    assert forall i :: 0 <= i < |rest| ==> rest[i] == segments[i + 1];
  }

  lemma FreshRestExtends(segments: seq<string>, st: Scan, next: Scan)
    requires segments != [] && IsEntry(segments[0]) && Fresh([segments[0]], st)
    requires next.seenLocal == (st.seenLocal || KeyOf(segments[0]) == "local")
    requires next.seenRemote == (st.seenRemote || KeyOf(segments[0]) == "remote")
    requires AreEntries(segments[1..]) && Fresh(segments[1..], next)
    ensures AreEntries(segments) && Fresh(segments, st)
  {
    hide SplitOnce, IsActionList;
    var rest := segments[1..];
    assert [segments[0]][0] == segments[0];
    assert forall i :: 0 < i < |segments| ==> segments[i] == rest[i - 1];
    forall i, j | 0 <= i < j < |segments|
      ensures KeyOf(segments[i]) != KeyOf(segments[j])
    {
      assert IsEntry(rest[j - 1]);
    }
  }

  lemma FirstEntry(segments: seq<string>, st: Scan)
    requires segments != []
    ensures AreEntries(segments) && Fresh(segments, st) ==> IsEntry(segments[0]) && Fresh([segments[0]], st)
  {
    assert [segments[0]][0] == segments[0];
  }

  lemma {:induction false} ParseSegmentsMeans(s: string, segments: seq<string>, st: Scan)
    ensures ParseSegments(s, segments, st).Ok? <==> AreEntries(segments) && Fresh(segments, st)
    ensures ParseSegments(s, segments, st).Ok? ==>
              ParseSegments(s, segments, st).value
              == Config(Given(segments, "local", st.cache.local), Given(segments, "remote", st.cache.remote))
  {
    if segments != [] {
      ParseSegmentMeans(s, segments[0], st);
      assert [segments[0]][0] == segments[0];
      match ParseSegment(s, segments[0], st) {
        case Ok(next) =>
          ParseSegmentsMeans(s, segments[1..], next);
          if AreEntries(segments) && Fresh(segments, st) {
            RestIsFresh(segments, st, next);
          }
          if AreEntries(segments[1..]) && Fresh(segments[1..], next) {
            FreshRestExtends(segments, st, next);
          }
          if AreEntries(segments) {
            OnlyOnceGiven(segments, "local", next.cache.local);
            OnlyOnceGiven(segments, "remote", next.cache.remote);
          }
        case Err(_) => FirstEntry(segments, st);
      }
    }
  }

  /** After the segment with a key no other segment has that key. */
  lemma OnlyOnceGiven(segments: seq<string>, key: string, default: Actions)
    requires segments != [] && AreEntries(segments)
    ensures KeyOf(segments[0]) == key ==> Given(segments[1..], key, default) == default
  {
    if KeyOf(segments[0]) == key {
      assert forall i :: 0 <= i < |segments[1..]| ==> segments[1..][i] == segments[i + 1];
      NeverGiven(segments[1..], key, default);
    }
  }

  lemma {:induction false} NeverGiven(segments: seq<string>, key: string, default: Actions)
    requires forall i :: 0 <= i < |segments| ==> KeyOf(segments[i]) != key
    ensures Given(segments, key, default) == default
  {
    if segments != [] {
      NeverGiven(segments[1..], key, default);
    }
  }

  /** A text is accepted exactly if it is empty or a comma list of entries with different keys, and then
      each cache gets the actions of its entry, or none. */
  lemma ParseAcceptsEntries(s: string)
    ensures Parse(s).Ok? <==> s == "" || AreEntries(Split(s))
    ensures s == "" ==> Parse(s) == Ok(Config(Actions(false, false), Actions(false, false)))
    ensures Parse(s).Ok? && s != "" ==>
              Parse(s).value == Config(Given(Split(s), "local", NONE), Given(Split(s), "remote", NONE))
  {
    ParseSegmentsMeans(s, Split(s), START);
  }

  // ---------- A canonical printer ----------

  function PrintActions(a: Actions): string {
    (if a.read then "r" else "") + (if a.write then "w" else "")
  }

  function Print(c: Config): string {
    "local:" + PrintActions(c.local) + "," + ("remote:" + PrintActions(c.remote))
  }

  lemma PrintedEntry(key: string, a: Actions)
    requires key == "local" || key == "remote"
    ensures var e := key + ":" + PrintActions(a);
            IsEntry(e) && ',' !in e && KeyOf(e) == key && LettersOf(ValueOf(e)) == a
  {
    SplitOnceAt(key, PrintActions(a));
  }

  lemma SplitTwo(l: string, r: string)
    requires ',' !in l && ',' !in r
    ensures Split(l + "," + r) == [l, r]
  {
    SplitFirst(l, r);
    SplitWord(r);
  }

  lemma GivenTwo(l: string, r: string)
    requires KeyOf(l) == "local" && KeyOf(r) == "remote"
    ensures Given([l, r], "local", NONE) == LettersOf(ValueOf(l))
    ensures Given([l, r], "remote", NONE) == LettersOf(ValueOf(r))
  {
    assert [l, r][1..] == [r];
    assert Given([l, r], "remote", NONE) == Given([r], "remote", NONE);
  }

  /** Parsing inverts printing, for every configuration. */
  lemma ParseInvertsPrint(c: Config)
    ensures Parse(Print(c)) == Ok(c)
  {
    hide Split, SplitOnce, Parse, PrintActions, Given, IsEntry;
    var l, r := "local" + ":" + PrintActions(c.local), "remote" + ":" + PrintActions(c.remote);
    PrintedEntry("local", c.local);
    PrintedEntry("remote", c.remote);
    assert "local:" == "local" + ":" && "remote:" == "remote" + ":";
    assert Print(c) == l + "," + r;
    SplitTwo(l, r);
    GivenTwo(l, r);
    assert Print(c)[|l|] == ',';
    ParseAcceptsEntries(Print(c));
  }

  // ---------- What errors say ----------

  /** Character `i` is the first that keeps `value` from being a list of actions. */
  ghost predicate FirstBad(value: string, i: int) {
    0 <= i < |value| && IsActionList(value[..i]) && !IsActionList(value[..i + 1])
  }

  /** The error names the first bad character: an unknown one, or a letter that is repeated there. */
  ghost predicate NamesFirstBad(e: Error, value: string) {
    match e
    case InvalidAction(_, c, _) => c != 'r' && c != 'w' && exists i :: FirstBad(value, i) && value[i] == c
    case DuplicateActions(_, "r (read)", _) => exists i :: FirstBad(value, i) && value[i] == 'r'
    case DuplicateActions(_, "w (write)", _) => exists i :: FirstBad(value, i) && value[i] == 'w'
    case _ => false
  }

  lemma ActionListSnoc(s: string, i: nat)
    requires i < |s|
    ensures IsActionList(s[..i + 1]) <==>
              IsActionList(s[..i]) && (s[i] == 'r' || s[i] == 'w') && s[i] !in s[..i]
    ensures LettersOf(s[..i + 1]) ==
              Actions('r' in s[..i] || s[i] == 'r', 'w' in s[..i] || s[i] == 'w')
  {
    var front, longer := s[..i], s[..i + 1];
    assert longer == front + [s[i]];
    if IsActionList(longer) {
      assert forall j :: 0 <= j < i ==> longer[j] == front[j] && longer[j] != longer[i];
      assert longer[i] in longer && forall c :: c in front ==> c in longer;
    }
  }

  /** Scanning the actions stops at the first bad character. */
  lemma {:induction false} ActionsStopAtFirstBad(s: string, i: nat)
    requires i <= |s| && IsActionList(s[..i]) && ActionsFrom(s, s[i..], LettersOf(s[..i])).Err?
    ensures NamesFirstBad(ActionsFrom(s, s[i..], LettersOf(s[..i])).error, s)
    decreases |s| - i
  {
    hide IsActionList;
    assert s[i..] != "" && s[i..][0] == s[i] && s[i..][1..] == s[i + 1..];
    ActionListSnoc(s, i);
    if IsActionList(s[..i + 1]) {
      ActionsStopAtFirstBad(s, i + 1);
    } else {
      assert FirstBad(s, i);
    }
  }

  /** The segments with a comma behind each. */
  function Lead(earlier: seq<string>): string {
    if earlier == [] then "" else Lead(earlier[..|earlier| - 1]) + earlier[|earlier| - 1] + ","
  }

  predicate HasKey(segments: seq<string>, key: string) {
    exists p :: p in segments && KeyOf(p) == key
  }

  /** The actions of a segment with a new key are wrong; the span begins where they begin. */
  ghost predicate HasBadValue(e: Error, earlier: seq<string>, segment: string) {
    var key, value := KeyOf(segment), ValueOf(segment);
    && SplitOnce(segment).Some? && (key == "local" || key == "remote") && !HasKey(earlier, key)
    && NamesFirstBad(e, value)
    && e.span == Some(Span(ByteLen(Lead(earlier) + key + ":"), if key == "local" then 5 else ByteLen(value)))
  }

  /** What is wrong in `segment`, after the given earlier ones. */
  ghost predicate Explains(e: Error, earlier: seq<string>, segment: string) {
    match e
    case InvalidPair(_, pair, span) =>
      pair == segment && ':' !in segment && span == Some(Span(ByteLen(Lead(earlier)), ByteLen(segment)))
    case DuplicateKeys(_, key, span) =>
      && SplitOnce(segment).Some? && KeyOf(segment) == key && HasKey(earlier, key)
      && span == Some(Span(ByteLen(Lead(earlier)), ByteLen(key)))
    case InvalidType(_, ty, span) =>
      && SplitOnce(segment).Some? && KeyOf(segment) == ty && ty != "local" && ty != "remote"
      && span == Some(Span(ByteLen(Lead(earlier)), ByteLen(ty)))
    case _ => HasBadValue(e, earlier, segment)
  }

  /** `segment` is the first segment of `s` that is wrong, and the error says how. */
  ghost predicate Located(s: string, e: Error, earlier: seq<string>, segment: string, after: string) {
    && s == Lead(earlier) + segment + after
    && AreEntries(earlier) && (forall p :: p in earlier ==> ',' !in p)
    && ',' !in segment && (after == "" || after[0] == ',')
    && e.text == s
    && Explains(e, earlier, segment)
  }

  lemma LocalHasFiveBytes()
    ensures ByteLen("local") == 5
  {
    assert "local"[1..] == "ocal" && "ocal"[1..] == "cal" && "cal"[1..] == "al" && "al"[1..] == "l" && "l"[1..] == "";
  }

  lemma ValueOffset(before: string, key: string)
    ensures ByteLen(before + key + ":") == ByteLen(before) + ByteLen(key) + 1
  {
    ByteLenAppend(before, key);
    ByteLenAppend(before + key, ":");
    assert ":"[1..] == "";
  }

  /** The scan has come past the earlier segments: it is at their byte length and knows their keys. */
  ghost predicate Scanned(earlier: seq<string>, st: Scan) {
    && AreEntries(earlier)
    && st.idx == ByteLen(Lead(earlier))
    && (st.seenLocal <==> HasKey(earlier, "local"))
    && (st.seenRemote <==> HasKey(earlier, "remote"))
  }

  lemma SegmentErrorIsExplained(s: string, earlier: seq<string>, action: string, st: Scan)
    requires ParseSegment(s, action, st).Err? && Scanned(earlier, st)
    ensures var e := ParseSegment(s, action, st).error; e.text == s && Explains(e, earlier, action)
  {
    hide SplitOnce, IsActionList, ByteLen, AreEntries, HasKey, ActionsFrom, FirstBad;
    if SplitOnce(action).Some? {
      var value := ValueOf(action);
      ParseActionsMeans(value);
      ValueOffset(Lead(earlier), KeyOf(action));
      LocalHasFiveBytes();
      if ParseActions(value).Err? {
        EmptyIsActionList();
        assert value[..0] == "" && value[0..] == value;
        ActionsStopAtFirstBad(value, 0);
      }
    }
  }

  lemma EmptyIsActionList()
    ensures IsActionList("") && LettersOf("") == NONE
  {
  }

  lemma LeadSnoc(earlier: seq<string>, action: string)
    ensures Lead(earlier + [action]) == Lead(earlier) + action + ","
    ensures ByteLen(Lead(earlier + [action])) == ByteLen(Lead(earlier)) + ByteLen(action) + 1
  {
    assert (earlier + [action])[..|earlier|] == earlier;
    ByteLenAppend(Lead(earlier), action);
    ByteLenAppend(Lead(earlier) + action, ",");
    assert ByteLen(",") == 1;
  }

  lemma EntriesSnoc(earlier: seq<string>, action: string)
    requires AreEntries(earlier)
    ensures AreEntries(earlier + [action]) <==> IsEntry(action) && !HasKey(earlier, KeyOf(action))
    ensures forall key :: HasKey(earlier + [action], key) <==> HasKey(earlier, key) || KeyOf(action) == key
  {
    hide IsEntry, KeyOf;
    var longer := earlier + [action];
    assert longer[|earlier|] == action && forall i :: 0 <= i < |earlier| ==> longer[i] == earlier[i];
    assert forall p :: p in longer <==> p in earlier || p == action;
  }

  lemma ScanGoesOn(s: string, earlier: seq<string>, action: string, st: Scan)
    requires Scanned(earlier, st) && ParseSegment(s, action, st).Ok?
    ensures Scanned(earlier + [action], ParseSegment(s, action, st).value)
  {
    hide SplitOnce, ParseSegment, Given, AreEntries, HasKey, ByteLen, Lead, KeyOf;
    ParseSegmentMeans(s, action, st);
    assert [action][0] == action;
    EntriesSnoc(earlier, action);
    LeadSnoc(earlier, action);
  }

  /** The running index is always the byte offset of the current segment. */
  lemma {:induction false} ErrorIsLocatedFrom(s: string, earlier: seq<string>, segments: seq<string>, st: Scan)
    requires s == Lead(earlier) + Join(segments) && Scanned(earlier, st)
    requires (forall p :: p in earlier ==> ',' !in p) && (forall p :: p in segments ==> ',' !in p)
    requires ParseSegments(s, segments, st).Err?
    ensures exists b, g, a :: Located(s, ParseSegments(s, segments, st).error, b, g, a)
    decreases |segments|
  {
    hide SplitOnce, ParseSegment, Explains, AreEntries, Scanned, Lead;
    var g, rest := segments[0], segments[1..];
    assert g in segments;
    match ParseSegment(s, g, st) {
      case Err(e) =>
        SegmentErrorIsExplained(s, earlier, g, st);
        var after := if rest == [] then "" else "," + Join(rest);
        assert s == Lead(earlier) + g + after;
        ScannedAreEntries(earlier, st);
        assert Located(s, e, earlier, g, after);
      case Ok(next) =>
        if rest != [] {
          ScanGoesOn(s, earlier, g, st);
          LeadSnoc(earlier, g);
          assert s == Lead(earlier) + g + "," + Join(rest);
          ErrorIsLocatedFrom(s, earlier + [g], rest, next);
        }
    }
  }

  lemma ScannedAreEntries(earlier: seq<string>, st: Scan)
    requires Scanned(earlier, st)
    ensures AreEntries(earlier)
  {
  }

  lemma ErrorsAreLocated(s: string)
    requires Parse(s).Err?
    ensures exists earlier, segment, after :: Located(s, Parse(s).error, earlier, segment, after)
  {
    JoinSplit(s);
    SplitHasNoCommas(s);
    assert Lead([]) + Join(Split(s)) == s;
    ErrorIsLocatedFrom(s, [], Split(s), START);
  }

  // ---------- Only one error fits ----------

  lemma {:induction false} SplitLead(earlier: seq<string>, s: string)
    requires forall p :: p in earlier ==> ',' !in p
    ensures Split(Lead(earlier) + s) == earlier + Split(s)
  {
    if earlier == [] {
      assert Lead(earlier) + s == s;
    } else {
      var front, last := earlier[..|earlier| - 1], earlier[|earlier| - 1];
      assert Lead(earlier) == Lead(front) + last + ",";
      hide Lead, Split;
      assert earlier == front + [last] && last in earlier;
      assert Lead(earlier) + s == Lead(front) + (last + "," + s);
      SplitLead(front, last + "," + s);
      SplitFirst(last, s);
      assert front + ([last] + Split(s)) == earlier + Split(s);
    }
  }

  /** The text of a located error begins with the earlier segments and the wrong one. */
  lemma LocatedSplit(s: string, e: Error, earlier: seq<string>, segment: string, after: string)
    requires Located(s, e, earlier, segment, after)
    ensures earlier + [segment] <= Split(s)
  {
    hide AreEntries, Explains, Lead, Split;
    assert s == Lead(earlier) + (segment + after);
    SplitLead(earlier, segment + after);
    if after == "" {
      assert segment + after == segment;
      SplitWord(segment);
    } else {
      assert segment + after == segment + "," + after[1..];
      SplitFirst(segment, after[1..]);
    }
  }

  lemma FirstBadIsUnique(value: string, i: int, j: int)
    requires FirstBad(value, i) && FirstBad(value, j)
    ensures i == j
  {
    if i < j {
      assert value[..j][..i + 1] == value[..i + 1];
      ActionListPrefix(value[..j], i + 1);
    } else if j < i {
      assert value[..i][..j + 1] == value[..j + 1];
      ActionListPrefix(value[..i], j + 1);
    }
  }

  lemma ActionListPrefix(s: string, n: nat)
    requires IsActionList(s) && n <= |s|
    ensures IsActionList(s[..n])
  {
    assert forall c :: c in s[..n] ==> c in s;
  }

  lemma ActionListHasNoBad(value: string, i: int)
    requires FirstBad(value, i)
    ensures !IsActionList(value)
  {
    if IsActionList(value) {
      ActionListPrefix(value, i + 1);
    }
  }

  /** A segment that an error explains does not continue the earlier entries. */
  lemma ExplainedIsWrong(e: Error, earlier: seq<string>, segment: string)
    requires Explains(e, earlier, segment)
    ensures !AreEntries(earlier + [segment])
  {
    hide SplitOnce, IsActionList, ByteLen, Lead, AreEntries, HasKey;
    if e.IsActionError() {
      var i := FirstBadOf(e, ValueOf(segment));
      ActionListHasNoBad(ValueOf(segment), i);
    }
    SplitOnceIsNone(segment);
    if AreEntries(earlier + [segment]) {
      EntriesPrefix(earlier + [segment], earlier);
      EntriesSnoc(earlier, segment);
    }
  }

  lemma NamesOneFirstBad(e: Error, f: Error, value: string)
    requires NamesFirstBad(e, value) && NamesFirstBad(f, value) && e.text == f.text && e.span == f.span
    ensures e == f
  {
    var i := FirstBadOf(e, value);
    var j := FirstBadOf(f, value);
    FirstBadIsUnique(value, i, j);
  }

  lemma FirstBadOf(e: Error, value: string) returns (i: int)
    requires NamesFirstBad(e, value)
    ensures FirstBad(value, i) && value[i] == BadCharacter(e)
  {
    var c := BadCharacter(e);
    i :| FirstBad(value, i) && value[i] == c;
  }

  function BadCharacter(e: Error): char {
    match e
    case InvalidAction(_, c, _) => c
    case DuplicateActions(_, "r (read)", _) => 'r'
    case _ => 'w'
  }

  lemma ExplanationIsUnique(e: Error, f: Error, earlier: seq<string>, segment: string)
    requires AreEntries(earlier) && e.text == f.text
    requires Explains(e, earlier, segment) && Explains(f, earlier, segment)
    ensures e == f
  {
    hide SplitOnce, IsActionList, ByteLen, Lead, NamesFirstBad;
    if HasKey(earlier, KeyOf(segment)) {
      var p :| p in earlier && KeyOf(p) == KeyOf(segment);
      assert IsEntry(p);
    }
    SplitOnceIsNone(segment);
    if e.IsActionError() && f.IsActionError() {
      NamesOneFirstBad(e, f, ValueOf(segment));
    }
  }

  lemma SplitOnceIsNone(s: string)
    ensures SplitOnce(s).None? <==> ':' !in s
  {
  }

  lemma EntriesPrefix(segments: seq<string>, prefix: seq<string>)
    requires AreEntries(segments) && prefix <= segments
    ensures AreEntries(prefix)
  {
    hide IsEntry;
    assert forall i :: 0 <= i < |prefix| ==> prefix[i] == segments[i];
  }

  /** Only one segment is the first that is wrong. */
  lemma FirstWrongIsUnique(segments: seq<string>, b: seq<string>, g: string, c: seq<string>, h: string)
    requires b + [g] <= segments && AreEntries(b) && !AreEntries(b + [g])
    requires c + [h] <= segments && AreEntries(c) && !AreEntries(c + [h])
    ensures b == c && g == h
  {
    hide AreEntries;
    WrongComesAfter(segments, b, g, c);
    WrongComesAfter(segments, c, h, b);
    assert b + [g] == segments[..|b| + 1] == c + [h];
    assert b == (b + [g])[..|b|] && c == (c + [h])[..|c|] && (b + [g])[|b|] == (c + [h])[|c|];
  }

  /** The first segment that is wrong comes after every list of entries that the segments begin with. */
  lemma WrongComesAfter(segments: seq<string>, b: seq<string>, g: string, c: seq<string>)
    requires b + [g] <= segments && !AreEntries(b + [g])
    requires c <= segments && AreEntries(c)
    ensures |c| <= |b|
  {
    hide IsEntry, KeyOf;
    assert forall i :: 0 <= i < |c| ==> c[i] == segments[i];
    assert forall i :: 0 <= i < |b + [g]| ==> (b + [g])[i] == segments[i];
  }

  /** A located segment is the first of the text that does not continue a list of entries. */
  lemma LocatedParts(s: string, e: Error, earlier: seq<string>, segment: string, after: string)
    requires Located(s, e, earlier, segment, after)
    ensures earlier + [segment] <= Split(s) && AreEntries(earlier) && !AreEntries(earlier + [segment])
  {
    hide AreEntries, Explains, Lead, Split;
    LocatedSplit(s, e, earlier, segment, after);
    ExplainedIsWrong(e, earlier, segment);
  }

  /** Parsing a text fails with an error exactly if that error explains the first segment that is wrong: it
      has no colon, an unknown key, the key of an earlier segment, or a value with a bad character. The
      error carries the whole text and the byte offset of the segment, or of its value. */
  lemma ErrorsExplainFirstWrongSegment(s: string, e: Error)
    requires s != ""
    ensures Parse(s) == Err(e) <==> exists earlier, segment, after :: Located(s, e, earlier, segment, after)
  {
    hide Parse, Located;
    if Parse(s) == Err(e) {
      ErrorsAreLocated(s);
    }
    if b, g, a :| Located(s, e, b, g, a) {
      LocatedIsRejected(s, e, b, g, a);
      ErrorsAreLocated(s);
      var c, h, z :| Located(s, Parse(s).error, c, h, z);
      LocatedParts(s, e, b, g, a);
      LocatedParts(s, Parse(s).error, c, h, z);
      FirstWrongIsUnique(Split(s), b, g, c, h);
      LocatedErrorsAgree(s, e, Parse(s).error, b, g, a, z);
    }
  }

  lemma LocatedIsRejected(s: string, e: Error, earlier: seq<string>, segment: string, after: string)
    requires s != "" && Located(s, e, earlier, segment, after)
    ensures Parse(s).Err?
  {
    LocatedParts(s, e, earlier, segment, after);
    hide Parse, Located, AreEntries, Split;
    ParseAcceptsEntries(s);
    if AreEntries(Split(s)) {
      EntriesPrefix(Split(s), earlier + [segment]);
    }
  }

  lemma LocatedErrorsAgree(s: string, e: Error, f: Error, b: seq<string>, g: string, a: string, z: string)
    requires Located(s, e, b, g, a) && Located(s, f, b, g, z)
    ensures e == f
  {
    ExplanationIsUnique(e, f, b, g);
  }

  // ---------- Error spans ----------

  /** `span` marks an occurrence of `t` in `s`. */
  ghost predicate Covers(s: string, span: Span, t: string) {
    exists a, b :: s == a + t + b && ByteLen(a) == span.offset && ByteLen(t) == span.length
  }

  /** The text an error is about: the segment, its key, or its actions. */
  function Offending(e: Error, segment: string): string {
    match e
    case InvalidPair(_, _, _) => segment
    case DuplicateKeys(_, key, _) => key
    case InvalidType(_, ty, _) => ty
    case _ => ValueOf(segment)
  }

  lemma CoversAt(s: string, a: string, t: string, b: string)
    requires s == a + t + b
    ensures Covers(s, Span(ByteLen(a), ByteLen(t)), t)
  {
  }

  /** The span covers exactly the offending text, except for actions of the local cache, whose span always
      has five bytes: it fits exactly the values of that length. */
  lemma SpanCoversOffendingText(s: string, e: Error, earlier: seq<string>, segment: string, after: string)
    requires Located(s, e, earlier, segment, after)
    ensures e.span.Some?
    ensures Covers(s, e.span.value, Offending(e, segment)) <==>
              !(e.IsActionError() && KeyOf(segment) == "local") || ByteLen(ValueOf(segment)) == 5
  {
    hide ByteLen, SplitOnce, NamesFirstBad, AreEntries, HasKey;
    var before := Lead(earlier);
    if e.InvalidPair? {
      CoversAt(s, before, segment, after);
    } else {
      var key, value := KeyOf(segment), ValueOf(segment);
      SegmentIsKeyAndValue(segment);
      if e.IsActionError() {
        assert s == (before + key + ":") + value + after;
        CoversAt(s, before + key + ":", value, after);
      } else {
        assert s == before + key + (":" + value + after);
        CoversAt(s, before, key, ":" + value + after);
      }
    }
  }

  lemma SegmentIsKeyAndValue(segment: string)
    requires SplitOnce(segment).Some?
    ensures segment == KeyOf(segment) + ":" + ValueOf(segment)
  {
  }

  lemma RepeatedReadIsRejected()
    ensures ParseActions("rr") == Err(DuplicateActions("rr", "r (read)", None))
    ensures ByteLen("rr") == 2
  {
    assert "rr"[1..] == "r" && "r"[1..] == "";
    assert ActionsFrom("rr", "rr", NONE) == ActionsFrom("rr", "r", NONE.(read := true));
  }

  /** So the span of a wrong local value need not cover it: here it has five bytes, of which two exist. */
  lemma LocalSpanMissesRepeatedRead()
    ensures Parse("local:rr") == Err(DuplicateActions("local:rr", "r (read)", Some(Span(6, 5))))
    ensures !Covers("local:rr", Span(6, 5), "rr")
  {
    hide Split, SplitOnce, ByteLen, ParseActions;
    var s := "local:rr";
    SplitWord(s);
    assert s == "local" + ":" + "rr";
    SplitOnceAt("local", "rr");
    LocalHasFiveBytes();
    RepeatedReadIsRejected();
    assert [s][1..] == [];
    assert ParseSegment(s, s, START) == Err(DuplicateActions(s, "r (read)", Some(Span(6, 5))));
  }
}
