/** `escapeXml` (server/routes/rss.xml.ts): five `replaceAll` passes that
    write the five predefined entities of section 4.6 of XML 1.0, `&` first,
    together with the decoder that undoes them. */
module XmlEscape {
  import opened Wrappers
  import opened Strings

  /** The XML declaration every feed and sitemap text opens with, and the
      newline after it. */
  const Declaration: String := "<?xml version=\"1.0\" encoding=\"UTF-8\"?>\n"

  const Amp: String := "&amp;"
  const Lt: String := "&lt;"
  const Gt: String := "&gt;"
  const Quot: String := "&quot;"
  const Apos: String := "&apos;"

  predicate IsMarkupChar(c: char) {
    c == '&' || c == '<' || c == '>' || c == '"' || c == '\''
  }

  /** `s.replaceAll(c, rep)` for a one-character pattern. */
  function ReplaceAllChar(s: String, c: char, rep: String): String {
    if s == [] then []
    else (if s[0] == c then rep else [s[0]]) + ReplaceAllChar(s[1..], c, rep)
  }

  lemma {:induction false} ReplaceAllCharAppend(a: String, b: String, c: char, rep: String)
    ensures ReplaceAllChar(a + b, c, rep) == ReplaceAllChar(a, c, rep) + ReplaceAllChar(b, c, rep)
  {
    if a == [] {
      assert a + b == b;
    } else {
      assert (a + b)[1..] == a[1..] + b;
      ReplaceAllCharAppend(a[1..], b, c, rep);
    }
  }

  /** The five passes in the source's order. */
  function Passes(s: String): String {
    var amp := ReplaceAllChar(s, '&', Amp);
    var lt := ReplaceAllChar(amp, '<', Lt);
    var gt := ReplaceAllChar(lt, '>', Gt);
    var quot := ReplaceAllChar(gt, '"', Quot);
    ReplaceAllChar(quot, '\'', Apos)
  }

  /** The entity for one character: the reference the passes are checked
      against. */
  function EscapeChar(c: char): String {
    if c == '&' then Amp
    else if c == '<' then Lt
    else if c == '>' then Gt
    else if c == '"' then Quot
    else if c == '\'' then Apos
    else [c]
  }

  /** Character-by-character escaping. */
  function EscapeEach(s: String): String {
    if s == [] then [] else EscapeChar(s[0]) + EscapeEach(s[1..])
  }

  lemma {:induction false} PassesAppend(a: String, b: String)
    ensures Passes(a + b) == Passes(a) + Passes(b)
  {
    var amp := ReplaceAllChar(a + b, '&', Amp);
    ReplaceAllCharAppend(a, b, '&', Amp);
    var a1, b1 := ReplaceAllChar(a, '&', Amp), ReplaceAllChar(b, '&', Amp);
    ReplaceAllCharAppend(a1, b1, '<', Lt);
    var a2, b2 := ReplaceAllChar(a1, '<', Lt), ReplaceAllChar(b1, '<', Lt);
    ReplaceAllCharAppend(a2, b2, '>', Gt);
    var a3, b3 := ReplaceAllChar(a2, '>', Gt), ReplaceAllChar(b2, '>', Gt);
    ReplaceAllCharAppend(a3, b3, '"', Quot);
    var a4, b4 := ReplaceAllChar(a3, '"', Quot), ReplaceAllChar(b3, '"', Quot);
    ReplaceAllCharAppend(a4, b4, '\'', Apos);
  }

  /** No entity text holds a character a later pass rewrites, so each
      character meets exactly one pass. */
  lemma {:induction false} PassesOnChar(c: char)
    ensures Passes([c]) == EscapeChar(c)
  {
    if c == '&' {
      PassesOnAmp();
    } else if c == '<' {
      PassesOnLt();
    } else if c == '>' {
      PassesOnGt();
    } else {
      PassesOnOther(c);
    }
  }

  lemma {:induction false} PassesOnAmp()
    ensures Passes("&") == Amp
  {
    ReplaceAllCharSingle('&', '&', Amp);
    AfterEntity(Amp, Lt, Gt, Quot, Apos);
  }

  lemma {:induction false} PassesOnLt()
    ensures Passes("<") == Lt
  {
    ReplaceAllCharSingle('<', '&', Amp);
    ReplaceAllCharSingle('<', '<', Lt);
    AfterLtPass(Lt, Gt, Quot, Apos);
  }

  /** An entity text passes the last three passes unchanged. */
  lemma {:induction false} AfterLtPass(e: String, gt: String, quot: String, apos: String)
    requires '>' !in e && '"' !in e && '\'' !in e
    ensures ReplaceAllChar(ReplaceAllChar(ReplaceAllChar(e, '>', gt), '"', quot), '\'', apos) == e
  {
    ReplaceAllCharAbsent(e, '>', gt);
    ReplaceAllCharAbsent(e, '"', quot);
    ReplaceAllCharAbsent(e, '\'', apos);
  }

  lemma {:induction false} PassesOnGt()
    ensures Passes(">") == Gt
  {
    ReplaceAllCharSingle('>', '&', Amp);
    ReplaceAllCharSingle('>', '<', Lt);
    ReplaceAllCharSingle('>', '>', Gt);
    ReplaceAllCharAbsent(Gt, '"', Quot);
    ReplaceAllCharAbsent(Gt, '\'', Apos);
  }

  lemma {:induction false} PassesOnOther(c: char)
    requires c != '&' && c != '<' && c != '>'
    ensures Passes([c]) == EscapeChar(c)
  {
    ReplaceAllCharSingle(c, '&', Amp);
    ReplaceAllCharSingle(c, '<', Lt);
    ReplaceAllCharSingle(c, '>', Gt);
    ReplaceAllCharSingle(c, '"', Quot);
    if c == '"' {
      ReplaceAllCharAbsent(Quot, '\'', Apos);
    } else {
      ReplaceAllCharSingle(c, '\'', Apos);
    }
  }

  /** An entity text passes the remaining passes unchanged. */
  lemma {:induction false} AfterEntity(e: String, lt: String, gt: String, quot: String, apos: String)
    requires '<' !in e && '>' !in e && '"' !in e && '\'' !in e
    ensures ReplaceAllChar(ReplaceAllChar(ReplaceAllChar(ReplaceAllChar(e, '<', lt), '>', gt), '"', quot), '\'', apos) == e
  {
    ReplaceAllCharAbsent(e, '<', lt);
    ReplaceAllCharAbsent(e, '>', gt);
    ReplaceAllCharAbsent(e, '"', quot);
    ReplaceAllCharAbsent(e, '\'', apos);
  }

  lemma {:induction false} ReplaceAllCharSingle(x: char, c: char, rep: String)
    ensures ReplaceAllChar([x], c, rep) == if x == c then rep else [x]
  {
    assert [x][1..] == [];
  }

  lemma {:induction false} ReplaceAllCharAbsent(s: String, c: char, rep: String)
    requires c !in s
    ensures ReplaceAllChar(s, c, rep) == s
  {
    if s != [] {
      ReplaceAllCharAbsent(s[1..], c, rep);
    }
  }

  /** Because `&` goes first, the passes escape character by character. */
  lemma {:induction false} PassesEscapeEach(s: String)
    ensures Passes(s) == EscapeEach(s)
  {
    if s != [] {
      assert s == [s[0]] + s[1..];
      PassesAppend([s[0]], s[1..]);
      PassesOnChar(s[0]);
      PassesEscapeEach(s[1..]);
    }
  }

  /** Prepends a character to a decoded text, keeping a failure. */
  function Prepend(c: char, rest: Option<String>): Option<String> {
    match rest
    case None => None
    case Some(t) => Some([c] + t)
  }

  /** Decodes the five entities; an `&` that starts none of them is an error. */
  function Unescape(s: String): Option<String>
    decreases |s|
  {
    if s == [] then Some([])
    else if s[0] != '&' then Prepend(s[0], Unescape(s[1..]))
    else if StartsWith(s, Amp) then Prepend('&', Unescape(s[5..]))
    else if StartsWith(s, Lt) then Prepend('<', Unescape(s[4..]))
    else if StartsWith(s, Gt) then Prepend('>', Unescape(s[4..]))
    else if StartsWith(s, Quot) then Prepend('"', Unescape(s[6..]))
    else if StartsWith(s, Apos) then Prepend('\'', Unescape(s[6..]))
    else None
  }

  /** No raw `<`, `>`, `"` or `'`. */
  predicate NoRawMarkup(s: String) {
    forall i :: 0 <= i < |s| ==> s[i] != '<' && s[i] != '>' && s[i] != '"' && s[i] != '\''
  }

  lemma {:induction false} UnescapeEntity(c: char, rest: String)
    ensures Unescape(EscapeChar(c) + rest) == Prepend(c, Unescape(rest))
  {
    var e := EscapeChar(c);
    var s := e + rest;
    assert s[..|e|] == e;
    assert s[|e|..] == rest;
    if c == '&' {
      assert StartsWith(s, Amp);
    } else if c == '<' {
      assert s[1] == 'l';
      assert StartsWith(s, Lt);
    } else if c == '>' {
      assert s[1] == 'g';
      assert StartsWith(s, Gt);
    } else if c == '"' {
      assert s[1] == 'q';
      assert StartsWith(s, Quot);
    } else if c == '\'' {
      assert s[1] == 'a' && s[2] == 'p';
      assert !StartsWith(s, Amp);
      assert StartsWith(s, Apos);
    } else {
      assert s[1..] == rest;
    }
  }

  lemma {:induction false} UnescapeEscapeEach(s: String)
    ensures Unescape(EscapeEach(s)) == Some(s)
  {
    if s != [] {
      UnescapeEntity(s[0], EscapeEach(s[1..]));
      UnescapeEscapeEach(s[1..]);
      assert [s[0]] + s[1..] == s;
    }
  }

  lemma {:induction false} EscapeEachNoRaw(s: String)
    ensures NoRawMarkup(EscapeEach(s))
  {
    if s != [] {
      EscapeEachNoRaw(s[1..]);
      var e := EscapeChar(s[0]);
      var r := EscapeEach(s);
      assert r == e + EscapeEach(s[1..]);
      forall i | 0 <= i < |r|
        ensures r[i] != '<' && r[i] != '>' && r[i] != '"' && r[i] != '\''
      {
        if i >= |e| {
          assert r[i] == EscapeEach(s[1..])[i - |e|];
        }
      }
    }
  }

  /** `escapeXml`: the escaped text has no raw `<`, `>`, `"` or `'`, every
      `&` in it begins one of the five entities, and decoding those
      entities gives back the input. */
  function EscapeXml(s: String): (r: String)
    ensures NoRawMarkup(r)
    ensures Unescape(r) == Some(s)
  {
    PassesEscapeEach(s);
    EscapeEachNoRaw(s);
    UnescapeEscapeEach(s);
    Passes(s)
  }

  /** Conversely, a text without raw markup characters that decodes to `s`
      is the escaped form of `s`: escaping is the only encoding the decoder
      accepts. */
  lemma {:induction false} EscapeXmlComplete(r: String, s: String)
    requires NoRawMarkup(r) && Unescape(r) == Some(s)
    ensures EscapeXml(s) == r
  {
    PassesEscapeEach(s);
    EscapeEachComplete(r, s);
  }

  lemma {:induction false} EscapeEachComplete(r: String, s: String)
    requires NoRawMarkup(r) && Unescape(r) == Some(s)
    ensures EscapeEach(s) == r
    decreases |r|
  {
    if r != [] {
      var n: nat;
      if r[0] != '&' {
        n := 1;
      } else if StartsWith(r, Amp) {
        n := 5;
      } else if StartsWith(r, Lt) || StartsWith(r, Gt) {
        n := 4;
      } else {
        n := 6;
      }
      var tail := Unescape(r[n..]);
      assert tail.Some?;
      assert s == [s[0]] + tail.value;
      assert r[..n] == EscapeChar(s[0]);
      assert NoRawMarkup(r[n..]) by {
        assert forall i :: 0 <= i < |r[n..]| ==> r[n..][i] == r[n + i];
      }
      EscapeEachComplete(r[n..], tail.value);
      assert s[1..] == tail.value;
      assert r == r[..n] + r[n..];
    }
  }
}
