/** The front-matter reader of scripts/generate-feeds.ts: the block
    between the opening `---` line and the next `\n---`, and the line
    parser that turns `key: value` lines into fields, a later key
    overwriting an earlier one. */
module FrontMatter {
  import opened Wrappers
  import opened Strings

  const Opening: String := "---"
  const Closing: String := "\n---"

  // ---------------------------------------------------------------------
  // The block: /^---\s*\n([\s\S]*?)\n---/

  /** Some `\n---` starts at or after `from`. */
  predicate ClosedAfter(content: String, from: nat) {
    exists j :: from <= j < |content| && OccursAt(content, Closing, j)
  }

  /** A newline at `q` after which the lazy group can stop: where the
      backtracking search may end `\s*`. */
  predicate NewlineCandidate(content: String, q: nat) {
    3 <= q < |content| && content[q] == '\n' && ClosedAfter(content, q + 1)
  }

  /** Everything from index 3 up to and including `q` is white space. */
  predicate SpaceThrough(content: String, q: nat) {
    q < |content| && forall i :: 3 <= i <= q ==> IsSpace(content[i])
  }

  /** A newline inside the white-space run after `---` with a `\n---`
      somewhere after it. */
  predicate Candidate(content: String, q: nat) {
    NewlineCandidate(content, q) && SpaceThrough(content, q)
  }

  /** The group ends at the first `\n---` at or after `start`. */
  lemma {:induction false} FirstClosing(content: String, start: nat)
    requires start <= |content|
    ensures IndexOfFrom(content, Closing, start).None? <==> !ClosedAfter(content, start)
  {
    var r := IndexOfFrom(content, Closing, start);
    if r.Some? {
      assert OccursAt(content, Closing, r.value);
    }
  }

  /** The backtracking search: `\s*` gives back white space until it ends
      just before a newline at `q`, and the lazy group then stops at the
      first `\n---` after that newline. Candidates `q` below `k` are tried
      from the right. The result is where the group starts and ends. */
  function SpanFrom(content: String, k: nat): (r: Option<(nat, nat)>)
    requires 3 <= k <= |content|
    ensures r.Some? ==>
      var (start, end) := r.value;
      && 4 <= start <= end && start < k + 1 && end + 4 <= |content|
      && content[start - 1] == '\n'
      && OccursAt(content, Closing, end)
      && (forall j :: start <= j < end ==> !OccursAt(content, Closing, j))
    decreases k
  {
    if k == 3 then None
    else
      var q := k - 1;
      if content[q] == '\n' then
        match IndexOfFrom(content, Closing, q + 1)
        case Some(j) => Some((q + 1, j))
        case None => SpanFrom(content, q)
      else SpanFrom(content, q)
  }

  /** The search finds a span exactly when some newline below `k` has a
      `\n---` after it, and then starts after the rightmost one. */
  lemma {:induction false} SpanFromCandidates(content: String, k: nat)
    requires 3 <= k <= |content|
    ensures var r := SpanFrom(content, k);
            && (r.None? ==> forall q: nat :: q < k ==> !NewlineCandidate(content, q))
            && (r.Some? ==> NewlineCandidate(content, r.value.0 - 1)
                            && forall q: nat :: r.value.0 <= q < k ==> !NewlineCandidate(content, q))
    decreases k
  {
    if k > 3 {
      var q := k - 1;
      FirstClosing(content, q + 1);
      if content[q] != '\n' || IndexOfFrom(content, Closing, q + 1).None? {
        assert !NewlineCandidate(content, q);
        SpanFromCandidates(content, q);
      }
    }
  }

  /** Below the end of the white-space run after `---`, every index from 3
      on is inside the run; at or past it none is. */
  lemma {:induction false} RunBounds(content: String, q: nat)
    requires StartsWith(content, Opening) && 3 <= q < |content|
    ensures var k := 3 + LeadingSpaces(content[3..]);
            SpaceThrough(content, q) <==> q < k
  {
    var t := content[3..];
    var k := 3 + LeadingSpaces(t);
    if q < k {
      forall i | 3 <= i <= q
        ensures IsSpace(content[i])
      {
        assert content[i] == t[i - 3];
      }
    } else {
      assert content[k] == t[k - 3];
      assert !IsSpace(content[k]);
    }
  }

  /** The search over the white-space run finds the rightmost candidate,
      and none when there is no candidate. */
  lemma {:induction false} SpanCandidates(content: String)
    requires StartsWith(content, Opening)
    ensures var r := SpanFrom(content, 3 + LeadingSpaces(content[3..]));
            && (r.None? ==> forall q: nat :: !Candidate(content, q))
            && (r.Some? ==> Candidate(content, r.value.0 - 1)
                            && forall q: nat :: r.value.0 <= q ==> !Candidate(content, q))
  {
    var k := 3 + LeadingSpaces(content[3..]);
    var r := SpanFrom(content, k);
    SpanFromCandidates(content, k);
    forall q: nat | 3 <= q < |content|
      ensures SpaceThrough(content, q) <==> q < k
    {
      RunBounds(content, q);
    }
    if r.Some? {
      assert SpaceThrough(content, r.value.0 - 1);
    }
  }

  /** Where the captured group of the front-matter regex lies in `content`:
      after `---`, white space and a newline, up to the first `\n---` that
      follows. The regex matches exactly when some newline of the run has
      a `\n---` after it, and the group starts after the rightmost such
      newline. */
  function BlockSpan(content: String): (r: Option<(nat, nat)>)
    ensures r.None? <==> !StartsWith(content, Opening) || forall q: nat :: !Candidate(content, q)
    ensures r.Some? ==>
      var (start, end) := r.value;
      && StartsWith(content, Opening)
      && 4 <= start <= end && end + 4 <= |content|
      && Candidate(content, start - 1)
      && (forall q: nat :: start <= q ==> !Candidate(content, q))
      && OccursAt(content, Closing, end)
      && (forall j :: start <= j < end ==> !OccursAt(content, Closing, j))
  {
    if StartsWith(content, Opening) then
      SpanCandidates(content);
      SpanFrom(content, 3 + LeadingSpaces(content[3..]))
    else None
  }

  /** `content.match(/^---\s*\n([\s\S]*?)\n---/)`'s group, or None. */
  function Block(content: String): Option<String> {
    match BlockSpan(content)
    case None => None
    case Some((start, end)) => Some(content[start..end])
  }

  /** The group starts after a candidate newline followed by a
      non-space character and ends at the first `\n---` after it. */
  lemma {:induction false} BlockAt(content: String, q: nat, e: nat)
    requires StartsWith(content, Opening)
    requires Candidate(content, q) && q + 1 < |content| && !IsSpace(content[q + 1])
    requires q + 1 <= e && OccursAt(content, Closing, e)
    requires forall j :: q + 1 <= j < e ==> !OccursAt(content, Closing, j)
    ensures Block(content) == Some(content[q + 1..e])
  {
    var r := BlockSpan(content);
    var (start, end) := r.value;
    assert q < start;
    assert SpaceThrough(content, start - 1);
    assert start <= q + 1;
    assert OccursAt(content, Closing, end) && OccursAt(content, Closing, e);
    assert end <= e && e <= end;
  }

  /** The opening of `---`, white space and a newline before a body. */
  lemma {:induction false} HeadLayout(pad: String, body: String, tail: String)
    requires forall i :: 0 <= i < |pad| ==> IsSpace(pad[i])
    requires body != []
    ensures var content := Opening + pad + "\n" + body + tail;
            && StartsWith(content, Opening)
            && SpaceThrough(content, 3 + |pad|)
            && content[3 + |pad|] == '\n' && content[4 + |pad|] == body[0]
  {
    var content := Opening + pad + "\n" + body + tail;
    var head := Opening + pad + "\n";
    assert content == head + (body + tail);
    assert content[..3] == head[..3] == Opening;
    forall i | 3 <= i < 3 + |pad|
      ensures IsSpace(content[i])
    {
      assert content[i] == head[i] == pad[i - 3];
    }
  }

  /** A body with no `\n---` of its own ends at the `\n---` after it. */
  lemma {:induction false} BodyLayout(head: String, body: String, rest: String)
    requires forall j :: 0 <= j < |body| ==> !OccursAt(body + Closing, Closing, j)
    ensures var content := head + body + Closing + rest;
            var e := |head| + |body|;
            && content[|head|..e] == body
            && OccursAt(content, Closing, e)
            && forall j :: |head| <= j < e ==> !OccursAt(content, Closing, j)
  {
    var content := head + body + Closing + rest;
    var e := |head| + |body|;
    var u := body + Closing;
    assert content == head + u + rest;
    assert content[|head|..e] == body;
    assert content[e..e + 4] == Closing;
    forall j | |head| <= j < e
      ensures !OccursAt(content, Closing, j)
    {
      assert !OccursAt(u, Closing, j - |head|);
      if j + 4 <= |content| {
        assert content[j..j + 4] == u[j - |head|..j - |head| + 4];
      }
    }
  }

  /** A file that opens with `---`, white space ending in a newline (a
      space before it, a carriage return, blank lines) and a body that
      does not start with white space and contains no `\n---` of its own
      yields that body. */
  lemma {:induction false} BlockOf(pad: String, body: String, rest: String)
    requires forall i :: 0 <= i < |pad| ==> IsSpace(pad[i])
    requires body != [] && !IsSpace(body[0])
    requires forall j :: 0 <= j < |body| ==> !OccursAt(body + Closing, Closing, j)
    ensures Block(Opening + pad + "\n" + body + Closing + rest) == Some(body)
  {
    var head := Opening + pad + "\n";
    var content := head + body + Closing + rest;
    HeadLayout(pad, body, Closing + rest);
    assert Opening + pad + "\n" + body + (Closing + rest) == content;
    BodyLayout(head, body, rest);
    BlockAt(content, |head| - 1, |head| + |body|);
  }

  // ---------------------------------------------------------------------
  // Lines

  datatype Field = Field(key: String, value: String)

  /** Removes one surrounding pair of `q`; `value.slice(1, -1)` on a lone
      `q` gives the empty string. */
  function StripPair(v: String, q: char): (r: String)
    ensures StartsWith(v, [q]) && EndsWith(v, [q]) ==> |r| == (if |v| >= 2 then |v| - 2 else 0)
    ensures StartsWith(v, [q]) && EndsWith(v, [q]) && |v| >= 2 ==> v == [q] + r + [q]
    ensures !(StartsWith(v, [q]) && EndsWith(v, [q])) ==> r == v
  {
    if StartsWith(v, [q]) && EndsWith(v, [q]) then
      if |v| >= 2 then
        assert v == [v[0]] + v[1..|v| - 1] + [v[|v| - 1]];
        v[1..|v| - 1]
      else []
    else v
  }

  /** The value text of a line: trimmed, then one pair of double quotes
      and then one pair of single quotes removed. */
  function Unquote(v: String): String {
    StripPair(StripPair(Trim(v), '"'), '\'')
  }

  /** A line yields a field when its first `:` is not its first
      character; the key is the trimmed text before that colon and the
      value the trimmed text after it, with one pair of double quotes and
      then one pair of single quotes removed. Later colons stay in the
      value. */
  function ParseLine(line: String): (r: Option<Field>)
    ensures r.Some? <==> ':' in line && IndexOfChar(line, ':') > 0
    ensures r.Some? ==> ':' !in r.value.key
    ensures r.Some? && r.value.key != [] ==> !IsSpace(r.value.key[0]) && !IsSpace(r.value.key[|r.value.key| - 1])
  {
    if ':' !in line then None
    else
      var i := IndexOfChar(line, ':');
      if i == 0 then None
      else
        var key := Trim(line[..i]);
        NotInTrim(line[..i], ':');
        Some(Field(key, Unquote(line[i + 1..])))
  }

  /** Splits `key + ":" + v` at its first colon. */
  lemma {:induction false} SplitAtColon(key: String, v: String)
    requires key != [] && ':' !in key
    ensures var line := key + ":" + v;
            && ':' in line && IndexOfChar(line, ':') == |key|
            && line[..|key|] == key && line[|key| + 1..] == v
  {
    IndexOfCharAfter(key, v, ':');
    assert key + ":" + v == key + [':'] + v;
  }

  /** A line `k:` followed by `v`, with no colon in `k`, yields the trimmed
      `k` (empty when `k` is only white space) and the unquoted `v`. */
  lemma {:induction false} ParseColonLine(k: String, v: String)
    requires k != [] && ':' !in k
    ensures ParseLine(k + ":" + v) == Some(Field(Trim(k), Unquote(v)))
  {
    SplitAtColon(k, v);
  }

  /** A line without a colon, or whose first colon starts it, yields no
      field. */
  lemma {:induction false} ParseNoKeyLine(v: String)
    ensures ParseLine(":" + v) == None
  {
    assert (":" + v)[0] == ':';
  }

  /** A line `key:` followed by `v` yields `key` and the unquoted,
      trimmed `v`. */
  lemma {:induction false} ParseKeyLine(key: String, v: String)
    requires key != [] && ':' !in key && !IsSpace(key[0]) && !IsSpace(key[|key| - 1])
    ensures ParseLine(key + ":" + v) == Some(Field(key, Unquote(v)))
  {
    ParseColonLine(key, v);
    TrimPadded([], key);
    assert [] + key == key;
  }

  /** Writing a field as `key: value` and reading it back gives the field,
      for a key with no colon and no surrounding white space and a value
      with no surrounding white space or quotes; the value may hold
      colons. */
  lemma {:induction false} ParsePlainLine(key: String, value: String)
    requires key != [] && ':' !in key && !IsSpace(key[0]) && !IsSpace(key[|key| - 1])
    requires value == [] || (!IsSpace(value[0]) && !IsSpace(value[|value| - 1]))
    requires !(StartsWith(value, "\"") && EndsWith(value, "\""))
    requires !(StartsWith(value, "'") && EndsWith(value, "'"))
    ensures ParseLine(key + ": " + value) == Some(Field(key, value))
  {
    ColonSpace(key, value);
    ParseKeyLine(key, " " + value);
    UnquotePlain(value);
  }

  lemma {:induction false} ColonSpace(key: String, value: String)
    ensures key + ": " + value == key + ":" + (" " + value)
  {
  }

  /** An unquoted value after the space that follows the colon is read as
      it is. */
  lemma {:induction false} UnquotePlain(value: String)
    requires value == [] || (!IsSpace(value[0]) && !IsSpace(value[|value| - 1]))
    requires !(StartsWith(value, "\"") && EndsWith(value, "\""))
    requires !(StartsWith(value, "'") && EndsWith(value, "'"))
    ensures Unquote(" " + value) == value
  {
    TrimPadded(" ", value);
    assert StripPair(value, '"') == value;
  }

  lemma {:induction false} StripWrapped(value: String, q: char)
    ensures StripPair([q] + value + [q], q) == value
  {
    var v := [q] + value + [q];
    assert v[..1] == [q] && v[|v| - 1..] == [q];
    assert v[1..|v| - 1] == value;
  }

  lemma {:induction false} StripLone(q: char)
    ensures StripPair([q], q) == []
  {
    assert [q][..1] == [q];
  }

  /** A double-quoted value is read back without its quotes, spaces
      inside kept, unless what is inside is itself single-quoted. */
  lemma {:induction false} ParseQuotedLine(key: String, value: String)
    requires key != [] && ':' !in key && !IsSpace(key[0]) && !IsSpace(key[|key| - 1])
    requires !(StartsWith(value, "'") && EndsWith(value, "'"))
    ensures ParseLine(key + ": \"" + value + "\"") == Some(Field(key, value))
  {
    var q := ['"'] + value + ['"'];
    var v := [' '] + q;
    assert key + ": \"" + value + "\"" == key + ":" + v;
    ParseKeyLine(key, v);
    TrimQuoted(value);
    StripWrapped(value, '"');
    assert StripPair(value, '\'') == value;
  }

  /** One space before a double-quoted text is trimmed away. */
  lemma {:induction false} TrimQuoted(value: String)
    ensures Trim([' '] + (['"'] + value + ['"'])) == ['"'] + value + ['"']
  {
    var q := ['"'] + value + ['"'];
    assert q[0] == '"' && q[|q| - 1] == '"';
    assert IsSpace([' '][0]);
    TrimPadded([' '], q);
  }

  /** The value text of a lone double quote unquotes to nothing. */
  lemma {:induction false} UnquoteLone()
    ensures Unquote(['"']) == []
  {
    TrimPadded([], ['"']);
    assert [] + ['"'] == ['"'];
    StripLone('"');
    assert StripPair([], '\'') == [];
  }

  /** A lone double quote reads as the empty value. */
  lemma {:induction false} ParseLoneQuote(key: String)
    requires key != [] && ':' !in key && !IsSpace(key[0]) && !IsSpace(key[|key| - 1])
    ensures ParseLine(key + ":\"") == Some(Field(key, []))
  {
    var q := ['"'];
    assert key + ":\"" == key + ":" + q;
    ParseKeyLine(key, q);
    UnquoteLone();
  }

  // ---------------------------------------------------------------------
  // Fields

  /** The fields of the lines that yield one, in order. */
  function ParseLines(lines: seq<String>): (r: seq<Field>)
    ensures |r| <= |lines|
  {
    if lines == [] then []
    else
      var rest := ParseLines(lines[1..]);
      match ParseLine(lines[0])
      case None => rest
      case Some(f) => [f] + rest
  }

  /** One line contributes its field, or nothing. */
  lemma {:induction false} ParseLinesOne(line: String)
    ensures ParseLines([line]) == if ParseLine(line).Some? then [ParseLine(line).value] else []
  {
    assert [line][1..] == [];
  }

  /** The fields of a block are those of its first lines followed by those
      of the rest: each line contributes in place. */
  lemma {:induction false} ParseLinesAppend(a: seq<String>, b: seq<String>)
    ensures ParseLines(a + b) == ParseLines(a) + ParseLines(b)
    decreases |a|
  {
    if a == [] {
      assert a + b == b;
    } else {
      assert (a + b)[0] == a[0] && (a + b)[1..] == a[1..] + b;
      ParseLinesAppend(a[1..], b);
    }
  }

  /** Assigns the fields in order (`post[key] = value` in `forEach`):
      applying a sequence is applying its last field to the result of
      the others. */
  function Assign(fields: seq<Field>): map<String, String>
    decreases |fields|
  {
    if fields == [] then map[]
    else
      var last := fields[|fields| - 1];
      Assign(fields[..|fields| - 1])[last.key := last.value]
  }

  /** The value of the last field with key `k`: the reference reading of
      "a later duplicate key overwrites an earlier one". */
  function LastValue(fields: seq<Field>, k: String): Option<String>
    decreases |fields|
  {
    if fields == [] then None
    else if fields[|fields| - 1].key == k then Some(fields[|fields| - 1].value)
    else LastValue(fields[..|fields| - 1], k)
  }

  function Lookup(m: map<String, String>, k: String): Option<String> {
    if k in m then Some(m[k]) else None
  }

  /** The parsed object holds, for every key, the value of the key's last
      line, and no other key. */
  lemma {:induction false} LastKeyWins(fields: seq<Field>, k: String)
    ensures Lookup(Assign(fields), k) == LastValue(fields, k)
    decreases |fields|
  {
    if fields != [] {
      LastKeyWins(fields[..|fields| - 1], k);
    }
  }

  /** The object parsed from a front-matter block. */
  function ParseFrontMatter(block: String): map<String, String> {
    Assign(ParseLines(Split(block, '\n')))
  }
}
