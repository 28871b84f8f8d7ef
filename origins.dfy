/** The CORS allow-list of the chat server: the configured comma-separated
    origin string is split, each entry is trimmed and unquoted, empty entries
    are dropped, and `corsOriginCheck` decides each request's origin. */
module Origins {
  import opened Common

  /** The list used when no CORS_ORIGIN is configured. */
  const DefaultOrigins: string := "http://localhost:5173"

  /** The characters String.prototype.trim removes: the ECMAScript
      WhiteSpace and LineTerminator code points. */
  predicate IsSpace(c: char)
  {
    c == '\U{0009}' || c == '\U{000A}' || c == '\U{000B}' || c == '\U{000C}' || c == '\U{000D}'
    || c == ' ' || c == '\U{00A0}' || c == '\U{1680}'
    || ('\U{2000}' <= c <= '\U{200A}')
    || c == '\U{2028}' || c == '\U{2029}' || c == '\U{202F}' || c == '\U{205F}'
    || c == '\U{3000}' || c == '\U{FEFF}'
  }

  predicate IsQuote(c: char)
  {
    c == '\'' || c == '"'
  }

  // ---------------------------------------------------------------------
  // split(',') and its inverse

  /** String.prototype.split with a one-character separator: n separators
      give n + 1 pieces, and the empty string gives one empty piece. */
  function Split(s: string, sep: char): (r: seq<string>)
    ensures |r| >= 1
    ensures forall i :: 0 <= i < |r| ==> sep !in r[i]
  {
    if |s| == 0 then [""]
    else
      var rest := Split(s[1..], sep);
      if s[0] == sep then [""] + rest
      else [[s[0]] + rest[0]] + rest[1..]
  }

  /** Array.prototype.join with a one-character separator. */
  function Join(pieces: seq<string>, sep: char): string
    requires |pieces| >= 1
  {
    if |pieces| == 1 then pieces[0]
    else pieces[0] + [sep] + Join(pieces[1..], sep)
  }

  /** Splitting loses nothing: joining the pieces gives the string back. */
  lemma {:induction false} JoinSplit(s: string, sep: char)
    ensures Join(Split(s, sep), sep) == s
  {
    if |s| > 0 {
      JoinSplit(s[1..], sep);
      var rest := Split(s[1..], sep);
      if s[0] != sep {
        if |rest| == 1 {
          assert Split(s, sep) == [[s[0]] + rest[0]];
        } else {
          assert Split(s, sep)[1..] == rest[1..];
          assert Join(rest, sep) == rest[0] + [sep] + Join(rest[1..], sep);
        }
      }
    }
  }

  /** Joining pieces that do not contain the separator and splitting again
      gives the same pieces. */
  lemma {:induction false} SplitJoin(pieces: seq<string>, sep: char)
    requires |pieces| >= 1
    requires forall i :: 0 <= i < |pieces| ==> sep !in pieces[i]
    ensures Split(Join(pieces, sep), sep) == pieces
  {
    if |pieces| == 1 {
      SplitPiece(pieces[0], sep, []);
    } else {
      SplitJoin(pieces[1..], sep);
      SplitPiece(pieces[0], sep, pieces[1..]);
    }
  }

  /** A separator-free prefix before a separator becomes the first piece. */
  lemma {:induction false} SplitPiece(p: string, sep: char, tail: seq<string>)
    requires sep !in p
    requires tail == [] || Split(Join(tail, sep), sep) == tail
    ensures tail == [] ==> Split(p, sep) == [p]
    ensures tail != [] ==> Split(p + [sep] + Join(tail, sep), sep) == [p] + tail
  {
    if |p| == 0 {
      assert tail != [] ==> ([] + [sep] + Join(tail, sep))[1..] == Join(tail, sep);
    } else {
      SplitPiece(p[1..], sep, tail);
      if tail == [] {
        assert p == [p[0]] + p[1..];
      } else {
        var s := p + [sep] + Join(tail, sep);
        assert s[1..] == p[1..] + [sep] + Join(tail, sep);
        assert [p[0]] + p[1..] == p;
      }
    }
  }

  // ---------------------------------------------------------------------
  // trim() and the quote-stripping replace

  function TrimStart(s: string): string
  {
    if |s| > 0 && IsSpace(s[0]) then TrimStart(s[1..]) else s
  }

  function TrimEnd(s: string): string
  {
    if |s| > 0 && IsSpace(s[|s| - 1]) then TrimEnd(s[..|s| - 1]) else s
  }

  /** String.prototype.trim. */
  function Trim(s: string): string
  {
    TrimEnd(TrimStart(s))
  }

  /** Everything in `s` is white space. */
  predicate AllSpace(s: string)
  {
    forall i :: 0 <= i < |s| ==> IsSpace(s[i])
  }

  /** How many white-space characters `trim` removes at the start. */
  function LeadingSpace(s: string): (n: nat)
    ensures n <= |s|
  {
    if |s| > 0 && IsSpace(s[0]) then 1 + LeadingSpace(s[1..]) else 0
  }

  /** How many white-space characters `trim` removes at the end. */
  function TrailingSpace(s: string): (n: nat)
    ensures n <= |s|
  {
    if |s| > 0 && IsSpace(s[|s| - 1]) then 1 + TrailingSpace(s[..|s| - 1]) else 0
  }

  lemma AllSpacePrepend(c: char, t: string)
    requires IsSpace(c) && AllSpace(t)
    ensures AllSpace([c] + t)
  {
  }

  lemma AllSpaceAppend(t: string, c: char)
    requires IsSpace(c) && AllSpace(t)
    ensures AllSpace(t + [c])
  {
  }

  /** Trimming the start drops exactly the leading white space. */
  lemma {:induction false} TrimStartCut(s: string)
    ensures TrimStart(s) == s[LeadingSpace(s)..] && AllSpace(s[..LeadingSpace(s)])
    ensures TrimStart(s) == [] || !IsSpace(TrimStart(s)[0])
  {
    if |s| > 0 && IsSpace(s[0]) {
      var t := s[1..];
      TrimStartCut(t);
      var i := LeadingSpace(t);
      assert s[i + 1..] == t[i..];
      assert s[..i + 1] == [s[0]] + t[..i];
      AllSpacePrepend(s[0], t[..i]);
    }
  }

  /** Trimming the end drops exactly the trailing white space. */
  lemma {:induction false} TrimEndCut(s: string)
    ensures TrimEnd(s) == s[..|s| - TrailingSpace(s)] && AllSpace(s[|s| - TrailingSpace(s)..])
    ensures TrimEnd(s) == [] || !IsSpace(TrimEnd(s)[|TrimEnd(s)| - 1])
  {
    if |s| > 0 && IsSpace(s[|s| - 1]) {
      var t := s[..|s| - 1];
      TrimEndCut(t);
      var j := |t| - TrailingSpace(t);
      assert s[..j] == t[..j];
      assert s[j..] == t[j..] + [s[|s| - 1]];
      AllSpaceAppend(t[j..], s[|s| - 1]);
    }
  }

  /** trim() removes white space from both ends and nothing else: the result
      is a slice of the input surrounded only by white space, and it neither
      starts nor ends with white space. */
  lemma TrimSlice(s: string)
    ensures exists i, j :: 0 <= i <= j <= |s| && Trim(s) == s[i..j]
                           && AllSpace(s[..i]) && AllSpace(s[j..])
    ensures Trim(s) == [] || (!IsSpace(Trim(s)[0]) && !IsSpace(Trim(s)[|Trim(s)| - 1]))
  {
    TrimStartCut(s);
    var i := LeadingSpace(s);
    var t := s[i..];
    TrimEndCut(t);
    var j := |t| - TrailingSpace(t);
    assert t[..j] == s[i..i + j];
    assert t[j..] == s[i + j..];
    assert 0 <= i <= i + j <= |s| && Trim(s) == s[i..i + j] && AllSpace(s[..i]) && AllSpace(s[i + j..]);
    if Trim(s) != [] {
      assert Trim(s)[0] == TrimStart(s)[0];
    }
  }

  /** The `.replace(/^['"]|['"]$/g, '')` step: one leading quote and one
      trailing quote are removed, single or double, independently. */
  function StripQuotes(s: string): (r: string)
  {
    var t := if |s| > 0 && IsQuote(s[0]) then s[1..] else s;
    if |t| > 0 && IsQuote(t[|t| - 1]) then t[..|t| - 1] else t
  }

  /** Exactly one quote goes from each end that has one, nothing else
      changes, and a quote-free string is left alone. A lone quote is
      both the first and the last character and goes once. */
  lemma StripQuotesSlice(s: string)
    ensures exists i, j :: 0 <= i <= 1 && j <= |s| && |s| - 1 <= j && i <= j
                           && StripQuotes(s) == s[i..j]
                           && (i == 1 <==> |s| > 0 && IsQuote(s[0]))
                           && (j == |s| - 1 <==> |s| - i > 0 && IsQuote(s[|s| - 1]))
    ensures (|s| == 0 || (!IsQuote(s[0]) && !IsQuote(s[|s| - 1]))) ==> StripQuotes(s) == s
  {
    var i := if |s| > 0 && IsQuote(s[0]) then 1 else 0;
    var t := s[i..];
    var j := if |t| > 0 && IsQuote(t[|t| - 1]) then |s| - 1 else |s|;
    assert StripQuotes(s) == s[i..j];
  }

  /** The per-entry clean-up: `o.trim().replace(/^['"]|['"]$/g, '')`. */
  function Clean(o: string): string
  {
    StripQuotes(Trim(o))
  }

  /** Leading white space in front of a non-space character is exactly
      what `TrimStart` drops. */
  lemma {:induction false} TrimStartSpaced(pre: string, rest: string)
    requires AllSpace(pre) && rest != [] && !IsSpace(rest[0])
    ensures TrimStart(pre + rest) == rest
  {
    if pre != [] {
      assert (pre + rest)[1..] == pre[1..] + rest;
      TrimStartSpaced(pre[1..], rest);
    } else {
      assert pre + rest == rest;
    }
  }

  /** Trailing white space after a non-space character is exactly what
      `TrimEnd` drops. */
  lemma {:induction false} TrimEndSpaced(rest: string, post: string)
    requires AllSpace(post) && rest != [] && !IsSpace(rest[|rest| - 1])
    ensures TrimEnd(rest + post) == rest
  {
    if post != [] {
      assert (rest + post)[..|rest + post| - 1] == rest + post[..|post| - 1];
      TrimEndSpaced(rest, post[..|post| - 1]);
    } else {
      assert rest + post == rest;
    }
  }

  /** A quoted entry, with white space around the quotes, cleans to the
      text between the quotes when that text has no quote or white space
      at either end. */
  lemma CleanQuoted(pre: string, q: char, e: string, q': char, post: string)
    requires AllSpace(pre) && AllSpace(post) && IsQuote(q) && IsQuote(q')
    requires e != [] && !IsSpace(e[0]) && !IsQuote(e[0]) && !IsSpace(e[|e| - 1]) && !IsQuote(e[|e| - 1])
    ensures Clean(pre + [q] + e + [q'] + post) == e
  {
    var inner := [q] + e + [q'];
    assert pre + [q] + e + [q'] + post == pre + (inner + post);
    TrimStartSpaced(pre, inner + post);
    TrimEndSpaced(inner, post);
    assert inner[1..][..|inner| - 2] == e;
  }

  // ---------------------------------------------------------------------
  // The allow-list

  /** Array.prototype.filter(Boolean) on strings: drop the empty ones. */
  function NonEmpty(xs: seq<string>): (r: seq<string>)
  {
    if xs == [] then []
    else if xs[0] == "" then NonEmpty(xs[1..])
    else [xs[0]] + NonEmpty(xs[1..])
  }

  function CleanAll(xs: seq<string>): (r: seq<string>)
    ensures |r| == |xs|
    ensures forall i :: 0 <= i < |xs| ==> r[i] == Clean(xs[i])
  {
    if xs == [] then [] else [Clean(xs[0])] + CleanAll(xs[1..])
  }

  /** `allowedOrigins`: split on ',', clean each entry, drop empty ones. */
  function ParseOrigins(raw: string): seq<string>
  {
    NonEmpty(CleanAll(Split(raw, ',')))
  }

  /** `process.env.CORS_ORIGIN || 'http://localhost:5173'`. */
  function ConfiguredOrigins(env: Option<string>): seq<string>
  {
    ParseOrigins(if Truthy(env) then env.value else DefaultOrigins)
  }

  lemma {:induction false} NonEmptyMembers(xs: seq<string>)
    ensures forall e :: e in NonEmpty(xs) <==> e in xs && e != ""
  {
    if xs != [] {
      NonEmptyMembers(xs[1..]);
      assert xs == [xs[0]] + xs[1..];
    }
  }

  /** The allow-list holds exactly the non-empty cleaned pieces of the
      configured string. */
  lemma ParseOriginsMembers(raw: string, e: string)
    ensures e in ParseOrigins(raw) <==> e != "" && exists p :: p in Split(raw, ',') && Clean(p) == e
  {
    var pieces := Split(raw, ',');
    NonEmptyMembers(CleanAll(pieces));
    if e in CleanAll(pieces) {
      var k :| 0 <= k < |pieces| && CleanAll(pieces)[k] == e;
      assert pieces[k] in pieces;
    }
    if exists p :: p in pieces && Clean(p) == e {
      var p :| p in pieces && Clean(p) == e;
      var k :| 0 <= k < |pieces| && pieces[k] == p;
      assert CleanAll(pieces)[k] == e;
    }
  }

  /** An entry needs no cleaning when it has no white space or quote at
      either end and no comma. */
  predicate IsCleanEntry(e: string)
  {
    e != "" && ',' !in e
    && !IsSpace(e[0]) && !IsSpace(e[|e| - 1])
    && !IsQuote(e[0]) && !IsQuote(e[|e| - 1])
  }

  lemma CleanIdentity(e: string)
    requires IsCleanEntry(e)
    ensures Clean(e) == e
  {
    assert TrimStart(e) == e;
    assert TrimEnd(e) == e;
    StripQuotesSlice(e);
  }

  lemma {:induction false} ParseCleanEntries(entries: seq<string>)
    requires forall i :: 0 <= i < |entries| ==> IsCleanEntry(entries[i])
    ensures NonEmpty(CleanAll(entries)) == entries
  {
    if entries != [] {
      CleanIdentity(entries[0]);
      ParseCleanEntries(entries[1..]);
    }
  }

  /** Round trip: a list of clean origins written comma-separated parses
      back to the same list, in the same order. */
  lemma ParseJoinedOrigins(entries: seq<string>)
    requires |entries| >= 1
    requires forall i :: 0 <= i < |entries| ==> IsCleanEntry(entries[i])
    ensures ParseOrigins(Join(entries, ',')) == entries
  {
    SplitJoin(entries, ',');
    ParseCleanEntries(entries);
  }

  /** A single quoted origin, as in `CORS_ORIGIN="'https://app.example'"`,
      is allowed without its quotes. */
  lemma QuotedOriginParses(pre: string, q: char, e: string, q': char, post: string)
    requires AllSpace(pre) && AllSpace(post) && IsQuote(q) && IsQuote(q')
    requires IsCleanEntry(e)
    ensures ParseOrigins(pre + [q] + e + [q'] + post) == [e]
  {
    var raw := pre + [q] + e + [q'] + post;
    assert ',' !in raw by {
      assert forall c :: c in pre ==> IsSpace(c);
      assert forall c :: c in post ==> IsSpace(c);
    }
    SplitPiece(raw, ',', []);
    CleanQuoted(pre, q, e, q', post);
    assert Split(raw, ',') == [raw];
    assert CleanAll([raw]) == [e];
    assert NonEmpty([e]) == [e] by {
      assert [e][1..] == [];
    }
  }

  /** Without configuration the only allowed origin is the local dev server. */
  lemma DefaultConfiguration()
    ensures ConfiguredOrigins(None) == [DefaultOrigins]
    ensures ConfiguredOrigins(Some("")) == [DefaultOrigins]
  {
    assert IsCleanEntry(DefaultOrigins);
    ParseJoinedOrigins([DefaultOrigins]);
  }

  // ---------------------------------------------------------------------
  // corsOriginCheck

  /** What `corsOriginCheck` passes to its callback: `(null, true)`, or an
      Error with its message and `false`. */
  datatype CorsVerdict = Allow | Deny(message: string)

  /** `allowAll`: '*' is one of the entries. */
  predicate AllowAll(allowed: seq<string>)
  {
    "*" in allowed
  }

  function CorsOriginCheck(allowed: seq<string>, origin: Option<string>): (v: CorsVerdict)
    ensures v.Deny? ==> origin.Some? && v.message == "CORS error: Origin " + origin.value + " not allowed by CORS"
  {
    if !Truthy(origin) then Allow
    else if AllowAll(allowed) || origin.value in allowed then Allow
    else Deny("CORS error: Origin " + origin.value + " not allowed by CORS")
  }

  /** A request is refused exactly when it carries a non-empty origin, '*'
      is not allowed, and the origin equals no entry. */
  lemma CorsDecision(allowed: seq<string>, origin: Option<string>)
    ensures CorsOriginCheck(allowed, None) == Allow
    ensures CorsOriginCheck(allowed, origin).Allow?
            <==> origin.None? || origin.value == "" || "*" in allowed || origin.value in allowed
    ensures "*" in allowed ==> CorsOriginCheck(allowed, origin) == Allow
  {
  }

  /** End to end: under a configured string, a non-empty origin is allowed
      iff some comma-separated piece cleans to it or to '*'. */
  lemma ConfiguredOriginAllowed(raw: string, o: string)
    requires o != ""
    ensures CorsOriginCheck(ParseOrigins(raw), Some(o)).Allow?
            <==> exists p :: p in Split(raw, ',') && (Clean(p) == o || Clean(p) == "*")
  {
    ParseOriginsMembers(raw, o);
    ParseOriginsMembers(raw, "*");
  }
}
