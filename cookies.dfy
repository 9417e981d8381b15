/** The cookie helpers behind "remember me": the `getCookie` parser over the
    text `document.cookie` reads back, the text `setCookie` and
    `removeCookie` assign, and the token and preference helpers.

    The browser's cookie jar is modelled as an ordered list of name/value
    pairs; reading `document.cookie` renders it as `n1=v1; n2=v2`, and each
    assignment stores, replaces or expires one pair. The expiry date text is
    a parameter: the clock and `toUTCString` are outside the model. */
module Cookies {
  import opened Common

  const TokenKey := "rememberMeToken"
  const PreferenceKey := "rememberMePreference"
  const TokenDays := 30
  const PreferenceDays := 365
  const EpochExpiry := "Thu, 01 Jan 1970 00:00:00 UTC"

  /* ---------------------------------------------------------------------
     Splitting and joining on a separator
     --------------------------------------------------------------------- */

  /** The pieces joined back with `sep` between them. */
  function Join(parts: seq<string>, sep: char): string
    decreases |parts|
  {
    if parts == [] then ""
    else if |parts| == 1 then parts[0]
    else parts[0] + [sep] + Join(parts[1..], sep)
  }

  /** `s.split(sep)`: the maximal `sep`-free pieces of `s`, in order; the
      empty string gives one empty piece. */
  function Split(s: string, sep: char): (parts: seq<string>)
    ensures |parts| >= 1
    ensures forall k :: 0 <= k < |parts| ==> sep !in parts[k]
    decreases |s|
  {
    var i := IndexOf(s, sep);
    if i == |s| then
      [s]
    else
      assert sep !in s[..i];
      [s[..i]] + Split(s[i + 1..], sep)
  }

  /** Joining the pieces with the separator gives the text back. */
  lemma {:induction false} JoinSplit(s: string, sep: char)
    ensures Join(Split(s, sep), sep) == s
    decreases |s|
  {
    if sep !in s {
      SplitWhole(s, sep);
    } else {
      var i := IndexOf(s, sep);
      var head, tail := s[..i], s[i + 1..];
      var rest := Split(tail, sep);
      assert Split(s, sep) == [head] + rest by {
        assert sep !in head && s == head + [sep] + tail;
        SplitCons(head, tail, sep);
      }
      assert Join([head] + rest, sep) == head + [sep] + Join(rest, sep) by {
        assert ([head] + rest)[1..] == rest;
      }
      JoinSplit(tail, sep);
      assert s == head + [sep] + tail;
    }
  }

  /** The first separator after a separator-free prefix is the one right
      after it. */
  lemma {:induction false} IndexOfAfter(a: string, sep: char, b: string)
    requires sep !in a
    ensures IndexOf(a + [sep] + b, sep) == |a|
  {
    if a != [] {
      assert (a + [sep] + b)[1..] == a[1..] + [sep] + b;
      IndexOfAfter(a[1..], sep, b);
    }
  }

  /** A separator-free first piece splits off on its own. */
  lemma SplitCons(a: string, rest: string, sep: char)
    requires sep !in a
    ensures Split(a + [sep] + rest, sep) == [a] + Split(rest, sep)
  {
    var s := a + [sep] + rest;
    IndexOfAfter(a, sep, rest);
    assert s[..|a|] == a;
    assert s[|a| + 1..] == rest;
  }

  /** Splitting undoes joining pieces that do not contain the separator. */
  lemma {:induction false} SplitJoin(parts: seq<string>, sep: char)
    requires |parts| >= 1
    requires forall k :: 0 <= k < |parts| ==> sep !in parts[k]
    ensures Split(Join(parts, sep), sep) == parts
    decreases |parts|
  {
    if |parts| > 1 {
      SplitCons(parts[0], Join(parts[1..], sep), sep);
      SplitJoin(parts[1..], sep);
    } else {
      assert Split(parts[0], sep) == [parts[0]];
    }
  }

  /* ---------------------------------------------------------------------
     The getCookie parser
     --------------------------------------------------------------------- */

  /** The segment with its leading space characters (U+0020 only)
      removed. */
  function TrimLeadingSpaces(c: string): (t: string)
    ensures |t| <= |c| && t == c[|c| - |t|..]
    ensures forall i :: 0 <= i < |c| - |t| ==> c[i] == ' '
    ensures t == [] || t[0] != ' '
  {
    if |c| > 0 && c[0] == ' ' then TrimLeadingSpaces(c[1..]) else c
  }

  /** After its leading spaces, `segment` starts with `key`. */
  predicate SegmentMatches(segment: string, key: string) {
    key <= TrimLeadingSpaces(segment)
  }

  /** The value in the first of `segments` that matches `key`: the text
      after `key` in the trimmed segment. */
  function ValueIn(segments: seq<string>, key: string): Option<string>
  {
    if segments == [] then None
    else
      var c := TrimLeadingSpaces(segments[0]);
      if key <= c then Some(c[|key|..]) else ValueIn(segments[1..], key)
  }

  /** What `getCookie(name)` returns when `document.cookie` reads
      `document`. */
  function CookieValue(document: string, name: string): (r: Option<string>)
    ensures r.Some? ==> ';' !in r.value
  {
    var segments := Split(document, ';');
    ValueInNoSeparator(segments, name + "=");
    ValueIn(segments, name + "=")
  }

  /** A value read from segments that hold no `;` holds none either. */
  lemma {:induction false} ValueInNoSeparator(segments: seq<string>, key: string)
    requires forall k :: 0 <= k < |segments| ==> ';' !in segments[k]
    ensures ValueIn(segments, key).Some? ==> ';' !in ValueIn(segments, key).value
  {
    if segments != [] {
      var c := TrimLeadingSpaces(segments[0]);
      if key <= c {
        assert c[|key|..] == segments[0][|segments[0]| - |c| + |key|..];
      } else {
        ValueInNoSeparator(segments[1..], key);
      }
    }
  }

  /** The first matching segment decides the value; later segments,
      matching or not, do not count. */
  lemma {:induction false} ValueInFirstMatch(segments: seq<string>, key: string, k: nat)
    requires k < |segments| && SegmentMatches(segments[k], key)
    requires forall m :: 0 <= m < k ==> !SegmentMatches(segments[m], key)
    ensures ValueIn(segments, key) == Some(TrimLeadingSpaces(segments[k])[|key|..])
  {
    if k > 0 {
      assert !SegmentMatches(segments[0], key);
      ValueInFirstMatch(segments[1..], key, k - 1);
    }
  }

  /** No value is found exactly when no segment matches. */
  lemma {:induction false} ValueInAbsent(segments: seq<string>, key: string)
    ensures ValueIn(segments, key) == None <==>
      forall m :: 0 <= m < |segments| ==> !SegmentMatches(segments[m], key)
  {
    if segments != [] {
      ValueInAbsent(segments[1..], key);
      if !SegmentMatches(segments[0], key) {
        forall m | 0 <= m < |segments| && m > 0 ensures
          SegmentMatches(segments[m], key) == SegmentMatches(segments[1..][m - 1], key) { }
      }
    }
  }

  /** `getCookie`: splits the cookie text on `;`, strips the leading spaces
      of each segment, and returns the rest of the first segment that starts
      with `name=`. */
  method GetCookie(document: string, name: string) returns (r: Option<string>)
    ensures r == CookieValue(document, name)
  {
    var nameEQ := name + "=";
    var ca := Split(document, ';');
    var i := 0;
    while i < |ca|
      invariant 0 <= i <= |ca|
      invariant ValueIn(ca, nameEQ) == ValueIn(ca[i..], nameEQ)
    {
      var c := StripSpaces(ca[i]);
      assert ValueIn(ca[i..], nameEQ) ==
        if nameEQ <= c then Some(c[|nameEQ|..]) else ValueIn(ca[i + 1..], nameEQ)
      by {
        assert ca[i..][0] == ca[i] && ca[i..][1..] == ca[i + 1..];
      }
      if nameEQ <= c {
        return Some(c[|nameEQ|..]);
      }
      i := i + 1;
    }
    return None;
  }

  /** `getCookie`'s inner loop: drop one leading space at a time. */
  method StripSpaces(segment: string) returns (c: string)
    ensures c == TrimLeadingSpaces(segment)
  {
    c := segment;
    while |c| > 0 && c[0] == ' '
      invariant TrimLeadingSpaces(c) == TrimLeadingSpaces(segment)
    {
      c := c[1..];
    }
  }

  /** A cookie whose name only begins with `name` is not `name`'s: the `=`
      in the match prefix stops at the end of the name. */
  lemma LongerNameDoesNotMatch(name: string, other: string, value: string)
    requires '=' !in name && '=' !in other && other != name
    ensures !(name + "=" <= other + "=" + value)
  {
    var key := name + "=";
    var seg := other + "=" + value;
    // a position inside both where they differ
    var p: nat;
    if |name| < |other| {
      p := |name|;
      assert key[p] == '=' && seg[p] == other[p];
    } else if |name| > |other| {
      p := |other|;
      assert seg[p] == '=' && key[p] == name[p];
    } else {
      p :| 0 <= p < |name| && name[p] != other[p];
      assert key[p] == name[p] && seg[p] == other[p];
    }
    assert p < |key| && p < |seg| && key[p] != seg[p];
  }

  /* ---------------------------------------------------------------------
     The text the setters assign to document.cookie
     --------------------------------------------------------------------- */

  /** `setCookie(name, value, days)` assigns this, where `expires` is the
      UTC rendering of now plus `days` days. For a name, value and date
      without `;`, the assignment is exactly four `;`-separated fields: the
      pair, the expiry, the path and the same-site policy. */
  function SetCookieText(name: string, value: string, expires: string): (t: string)
    ensures ';' !in name && ';' !in value && ';' !in expires ==>
      Split(t, ';') == [name + "=" + value, "expires=" + expires, "path=/", "SameSite=Strict"]
  {
    var t := name + "=" + value + ";" + "expires=" + expires + ";" + "path=/" + ";" + "SameSite=Strict";
    if ';' !in name && ';' !in value && ';' !in expires then
      var pair, expiry := name + "=" + value, "expires=" + expires;
      assert t == pair + ";" + expiry + ";" + "path=/" + ";" + "SameSite=Strict";
      SplitFourFields(pair, expiry, "path=/", "SameSite=Strict");
      t
    else
      t
  }

  /** `removeCookie(name)` assigns this. For a name without `;`, the
      assignment pairs the name with an empty value and the 1970 epoch
      expiry, and ends in an empty field after the path. */
  function RemoveCookieText(name: string): (t: string)
    ensures ';' !in name ==>
      Split(t, ';') == [name + "=", "expires=" + EpochExpiry, "path=/", ""]
  {
    var t := name + "=" + ";" + "expires=" + EpochExpiry + ";" + "path=/" + ";";
    if ';' !in name then
      var pair, expiry := name + "=", "expires=" + EpochExpiry;
      assert t == pair + ";" + expiry + ";" + "path=/" + ";" + "";
      SplitFourFields(pair, expiry, "path=/", "");
      t
    else
      t
  }

  /** A separator-free last piece splits off on its own. */
  lemma {:induction false} SplitSnoc(x: string, sep: char, d: string)
    requires sep !in d
    ensures Split(x + [sep] + d, sep) == Split(x, sep) + [d]
    decreases |x|
  {
    if sep !in x {
      SplitWhole(d, sep);
      SplitWhole(x, sep);
      SplitCons(x, d, sep);
    } else {
      var i := IndexOf(x, sep);
      var head, tail := x[..i], x[i + 1..];
      assert sep !in head && x == head + [sep] + tail;
      SplitSnoc(tail, sep, d);
      SplitSnocStep(head, tail, sep, d);
    }
  }

  /** The inductive step of `SplitSnoc`: a separator-free first piece in
      front of a text for which it holds. */
  lemma SplitSnocStep(head: string, tail: string, sep: char, d: string)
    requires sep !in head
    requires Split(tail + [sep] + d, sep) == Split(tail, sep) + [d]
    ensures Split(head + [sep] + tail + [sep] + d, sep) == Split(head + [sep] + tail, sep) + [d]
  {
    var rest := Split(tail, sep);
    assert Split(head + [sep] + tail, sep) == [head] + rest by {
      SplitCons(head, tail, sep);
    }
    assert Split(head + [sep] + tail + [sep] + d, sep) == [head] + (rest + [d]) by {
      assert head + [sep] + tail + [sep] + d == head + [sep] + (tail + [sep] + d);
      SplitCons(head, tail + [sep] + d, sep);
    }
    assert [head] + (rest + [d]) == [head] + rest + [d];
  }

  /** A piece without the separator splits into just itself. */
  lemma SplitWhole(x: string, sep: char)
    requires sep !in x
    ensures Split(x, sep) == [x]
  {
    assert IndexOf(x, sep) == |x|;
  }

  /** Four `;`-free fields joined by `;` split back into those fields. */
  lemma SplitFourFields(a: string, b: string, c: string, d: string)
    requires ';' !in a && ';' !in b && ';' !in c && ';' !in d
    ensures Split(a + ";" + b + ";" + c + ";" + d, ';') == [a, b, c, d]
  {
    assert Split(a, ';') == [a];
    SplitSnoc(a, ';', b);
    SplitSnoc(a + ";" + b, ';', c);
    SplitSnoc(a + ";" + b + ";" + c, ';', d);
  }

  /* ---------------------------------------------------------------------
     The cookie jar
     --------------------------------------------------------------------- */

  datatype Cookie = Cookie(name: string, value: string)

  /** One assignment to `document.cookie`: `setCookie` with a lifetime in
      days, or `removeCookie`. */
  datatype CookieWrite =
    | Store(name: string, value: string, days: int)
    | Expire(name: string)

  /** A name the browser stores and renders verbatim. */
  predicate IsCookieName(n: string) {
    |n| > 0 && n[0] != ' ' && '=' !in n && ';' !in n
  }

  /** Every pair renders as one segment that reads back as itself. */
  predicate WellFormedJar(jar: seq<Cookie>) {
    forall k :: 0 <= k < |jar| ==> IsCookieName(jar[k].name) && ';' !in jar[k].value
  }

  /** The value stored under `name`. */
  function Lookup(jar: seq<Cookie>, name: string): (r: Option<string>)
    ensures r.None? <==> forall k :: 0 <= k < |jar| ==> jar[k].name != name
  {
    if jar == [] then None
    else if jar[0].name == name then Some(jar[0].value)
    else
      var r := Lookup(jar[1..], name);
      assert forall k :: 0 < k < |jar| ==> jar[k] == jar[1..][k - 1];
      r
  }

  /** A stored value is the one of the first pair with that name. */
  lemma {:induction false} LookupFirst(jar: seq<Cookie>, name: string, k: nat)
    requires k < |jar| && jar[k].name == name
    requires forall m :: 0 <= m < k ==> jar[m].name != name
    ensures Lookup(jar, name) == Some(jar[k].value)
  {
    if k > 0 {
      LookupFirst(jar[1..], name, k - 1);
    }
  }

  /** `name`'s pair with its value replaced, or appended when there is
      none. */
  function Upsert(jar: seq<Cookie>, name: string, value: string): seq<Cookie>
  {
    if jar == [] then [Cookie(name, value)]
    else if jar[0].name == name then [Cookie(name, value)] + jar[1..]
    else [jar[0]] + Upsert(jar[1..], name, value)
  }

  /** The jar without `name`'s pairs. */
  function Delete(jar: seq<Cookie>, name: string): seq<Cookie>
  {
    if jar == [] then []
    else if jar[0].name == name then Delete(jar[1..], name)
    else [jar[0]] + Delete(jar[1..], name)
  }

  /** What an assignment does to the jar: a positive lifetime stores the
      pair, an expiry date in the past removes it. */
  function Apply(jar: seq<Cookie>, w: CookieWrite): seq<Cookie> {
    match w
    case Store(name, value, days) =>
      if days > 0 then Upsert(jar, name, value) else Delete(jar, name)
    case Expire(name) => Delete(jar, name)
  }

  /** The text a helper assigns carries the write the jar applies: the
      first field of `setCookie`'s text is the pair the stored cookie
      renders as, and `removeCookie`'s text pairs the name with an empty
      value and an expiry in the past. */
  lemma AssignmentOfWrite(w: CookieWrite, expires: string)
    requires ';' !in w.name
    requires w.Store? ==> ';' !in w.value && ';' !in expires
    ensures w.Store? ==>
      Split(SetCookieText(w.name, w.value, expires), ';')[0] == Pair(Cookie(w.name, w.value))
    ensures w.Expire? ==>
      Split(RemoveCookieText(w.name), ';')[..2] == [Pair(Cookie(w.name, "")), "expires=" + EpochExpiry]
  {
    if w.Expire? {
      var fields := Split(RemoveCookieText(w.name), ';');
      assert fields == [w.name + "=", "expires=" + EpochExpiry, "path=/", ""];
      assert Pair(Cookie(w.name, "")) == w.name + "=";
    }
  }

  /** The jar after a sequence of assignments, in order. */
  function ApplyAll(jar: seq<Cookie>, ws: seq<CookieWrite>): seq<Cookie>
    decreases |ws|
  {
    if ws == [] then jar else ApplyAll(Apply(jar, ws[0]), ws[1..])
  }

  lemma ApplyTwo(jar: seq<Cookie>, w1: CookieWrite, w2: CookieWrite)
    ensures ApplyAll(jar, [w1, w2]) == Apply(Apply(jar, w1), w2)
  {
    assert [w1, w2][1..] == [w2] && [w2][1..] == [];
    assert ApplyAll(Apply(jar, w1), [w2]) == ApplyAll(Apply(Apply(jar, w1), w2), []);
  }

  /** Storing makes `name` read `value` and leaves every other name as it
      was. */
  lemma {:induction false} LookupUpsert(jar: seq<Cookie>, name: string, value: string, other: string)
    ensures Lookup(Upsert(jar, name, value), other) ==
      if other == name then Some(value) else Lookup(jar, other)
  {
    if jar != [] && jar[0].name != name {
      LookupUpsert(jar[1..], name, value, other);
    }
  }

  /** Deleting makes `name` absent and leaves every other name as it
      was. */
  lemma {:induction false} LookupDelete(jar: seq<Cookie>, name: string, other: string)
    ensures Lookup(Delete(jar, name), other) == if other == name then None else Lookup(jar, other)
  {
    if jar != [] {
      LookupDelete(jar[1..], name, other);
    }
  }

  /** Storing a well-formed pair keeps the jar well-formed. */
  lemma {:induction false} UpsertWellFormed(jar: seq<Cookie>, name: string, value: string)
    requires WellFormedJar(jar) && IsCookieName(name) && ';' !in value
    ensures WellFormedJar(Upsert(jar, name, value))
  {
    if jar != [] && jar[0].name != name {
      UpsertWellFormed(jar[1..], name, value);
    }
  }

  /** Deleting keeps the jar well-formed. */
  lemma {:induction false} DeleteWellFormed(jar: seq<Cookie>, name: string)
    requires WellFormedJar(jar)
    ensures WellFormedJar(Delete(jar, name))
  {
    if jar != [] {
      DeleteWellFormed(jar[1..], name);
    }
  }

  /** The segment a pair renders as. */
  function Pair(c: Cookie): string {
    c.name + "=" + c.value
  }

  /** The segments of the rendered jar: pairs, all but the first preceded by
      the space of the `; ` separator. */
  function Segments(jar: seq<Cookie>): (segs: seq<string>)
    ensures |segs| == |jar|
  {
    seq(|jar|, k requires 0 <= k < |jar| => (if k == 0 then "" else " ") + Pair(jar[k]))
  }

  /** What reading `document.cookie` gives for the jar. */
  function Render(jar: seq<Cookie>): string {
    Join(Segments(jar), ';')
  }

  /** A well-formed pair's segment, trimmed, matches `name=` exactly when
      the pair is `name`'s. */
  lemma SegmentOfPair(jar: seq<Cookie>, k: nat, name: string)
    requires WellFormedJar(jar) && k < |jar| && '=' !in name
    ensures TrimLeadingSpaces(Segments(jar)[k]) == Pair(jar[k])
    ensures SegmentMatches(Segments(jar)[k], name + "=") <==> jar[k].name == name
    ensures jar[k].name == name ==> Pair(jar[k])[|name + "="|..] == jar[k].value
  {
    var c, seg := jar[k], Segments(jar)[k];
    assert TrimLeadingSpaces(seg) == Pair(c) by {
      assert IsCookieName(c.name);
      TrimPair(c);
      assert seg == (if k == 0 then "" else " ") + Pair(c);
    }
    if c.name != name {
      LongerNameDoesNotMatch(name, c.name, c.value);
    } else {
      assert Pair(c) == (name + "=") + c.value;
    }
  }

  /** A pair whose name starts with no space loses nothing to trimming,
      with or without the space of the separator before it. */
  lemma TrimPair(c: Cookie)
    requires IsCookieName(c.name)
    ensures TrimLeadingSpaces(Pair(c)) == Pair(c)
    ensures TrimLeadingSpaces(" " + Pair(c)) == Pair(c)
  {
    assert Pair(c)[0] == c.name[0] != ' ';
    assert (" " + Pair(c))[1..] == Pair(c);
  }

  /** Reading a well-formed jar back through `getCookie` finds exactly what
      the jar holds under the name. */
  lemma RenderedLookup(jar: seq<Cookie>, name: string)
    requires WellFormedJar(jar) && '=' !in name
    ensures CookieValue(Render(jar), name) == Lookup(jar, name)
  {
    if jar == [] {
      EmptyRendering(name);
    } else {
      RenderedSegments(jar);
      SegmentsOfJar(jar, name);
    }
  }

  /** The jar's segments read back, under any name, what the jar holds. */
  lemma SegmentsOfJar(jar: seq<Cookie>, name: string)
    requires WellFormedJar(jar) && '=' !in name
    ensures ValueIn(Segments(jar), name + "=") == Lookup(jar, name)
  {
    var segs, key := Segments(jar), name + "=";
    forall k | 0 <= k < |jar|
      ensures SegmentMatches(segs[k], key) <==> jar[k].name == name
      ensures jar[k].name == name ==> TrimLeadingSpaces(segs[k])[|key|..] == jar[k].value
    {
      SegmentOfPair(jar, k, name);
    }
    SegmentsLookup(segs, jar, name, key);
  }

  /** Segments that match `key` exactly where the jar holds `name`, each
      with that pair's value after the key, read back what the jar holds. */
  lemma {:induction false} SegmentsLookup(segs: seq<string>, jar: seq<Cookie>, name: string, key: string)
    requires |segs| == |jar|
    requires forall k :: 0 <= k < |jar| ==> (SegmentMatches(segs[k], key) <==> jar[k].name == name)
    requires forall k :: 0 <= k < |jar| && jar[k].name == name ==>
      key <= TrimLeadingSpaces(segs[k]) && TrimLeadingSpaces(segs[k])[|key|..] == jar[k].value
    ensures ValueIn(segs, key) == Lookup(jar, name)
  {
    if jar != [] && jar[0].name != name {
      assert forall k :: 0 <= k < |jar| - 1 ==> segs[1..][k] == segs[k + 1] && jar[1..][k] == jar[k + 1];
      SegmentsLookup(segs[1..], jar[1..], name, key);
    }
  }

  /** An empty jar renders as the empty text, where no name is found. */
  lemma EmptyRendering(name: string)
    ensures CookieValue(Render([]), name) == None
  {
    assert Render([]) == "";
    assert Split("", ';') == [""];
    assert ValueIn([""], name + "=") == None by {
      assert TrimLeadingSpaces("") == "";
      assert !(name + "=" <= "");
      assert [""][1..] == [];
    }
  }

  /** A non-empty well-formed jar's rendering splits back into its
      segments. */
  lemma RenderedSegments(jar: seq<Cookie>)
    requires WellFormedJar(jar) && jar != []
    ensures Split(Render(jar), ';') == Segments(jar)
  {
    var segs := Segments(jar);
    forall k | 0 <= k < |segs| ensures ';' !in segs[k] {
      assert segs[k] == (if k == 0 then "" else " ") + Pair(jar[k]);
    }
    SplitJoin(segs, ';');
  }

  /* ---------------------------------------------------------------------
     The remember-me helpers
     --------------------------------------------------------------------- */

  /** `rememberMe.toString()`. */
  function BoolText(b: bool): string {
    if b then "true" else "false"
  }

  /** `getRememberMePreference` given what `getCookie` returned: it reads
      back the flag `setRememberMePreference` wrote as text, an absent
      cookie reads as false, and only the exact text "true" reads as
      true. */
  function PreferenceFrom(stored: Option<string>): (b: bool)
    ensures forall f: bool :: stored == Some(BoolText(f)) ==> b == f
    ensures stored == None ==> !b
    ensures b ==> stored == Some("true")
  {
    stored == Some("true")
  }

  /** The writes a login outcome makes through the helpers: a token is
      written exactly when "remember me" is set, for 30 days; the
      preference is always written last, as the flag's text, for 365 days;
      every write stores. */
  function RememberMeWrites(rememberMe: bool, token: string): (ws: seq<CookieWrite>)
    ensures rememberMe <==> exists k :: 0 <= k < |ws| && ws[k].name == TokenKey
    ensures rememberMe ==> ws[0] == Store(TokenKey, token, TokenDays)
    ensures |ws| >= 1 && ws[|ws| - 1] == Store(PreferenceKey, BoolText(rememberMe), PreferenceDays)
    ensures forall k :: 0 <= k < |ws| ==> ws[k].Store? && ws[k].days > 0
    ensures |ws| == if rememberMe then 2 else 1
  {
    if rememberMe then
      var ws := [Store(TokenKey, token, TokenDays), Store(PreferenceKey, "true", PreferenceDays)];
      assert ws[0].name == TokenKey;
      ws
    else [Store(PreferenceKey, "false", PreferenceDays)]
  }

  /** The preference written for `b` reads back as `b`, and it does not
      disturb the token. */
  lemma PreferenceRoundTrip(jar: seq<Cookie>, b: bool)
    requires WellFormedJar(jar)
    ensures var after := Apply(jar, Store(PreferenceKey, BoolText(b), PreferenceDays));
      && WellFormedJar(after)
      && PreferenceFrom(CookieValue(Render(after), PreferenceKey)) == b
      && CookieValue(Render(after), TokenKey) == CookieValue(Render(jar), TokenKey)
  {
    var after := Upsert(jar, PreferenceKey, BoolText(b));
    UpsertWellFormed(jar, PreferenceKey, BoolText(b));
    RenderedLookup(after, PreferenceKey);
    LookupUpsert(jar, PreferenceKey, BoolText(b), PreferenceKey);
    RenderedLookup(after, TokenKey);
    RenderedLookup(jar, TokenKey);
    LookupUpsert(jar, PreferenceKey, BoolText(b), TokenKey);
  }

  /** A stored token reads back verbatim; a removed one reads as absent;
      neither disturbs the preference. */
  lemma TokenRoundTrip(jar: seq<Cookie>, token: string)
    requires WellFormedJar(jar) && ';' !in token
    ensures var stored := Apply(jar, Store(TokenKey, token, TokenDays));
      && WellFormedJar(stored)
      && CookieValue(Render(stored), TokenKey) == Some(token)
      && CookieValue(Render(stored), PreferenceKey) == CookieValue(Render(jar), PreferenceKey)
    ensures var removed := Apply(jar, Expire(TokenKey));
      && WellFormedJar(removed)
      && CookieValue(Render(removed), TokenKey) == None
      && CookieValue(Render(removed), PreferenceKey) == CookieValue(Render(jar), PreferenceKey)
  {
    assert Apply(jar, Store(TokenKey, token, TokenDays)) == Upsert(jar, TokenKey, token);
    TokenStored(jar, token);
    assert Apply(jar, Expire(TokenKey)) == Delete(jar, TokenKey);
    TokenRemoved(jar);
  }

  lemma TokenStored(jar: seq<Cookie>, token: string)
    requires WellFormedJar(jar) && ';' !in token
    ensures var stored := Upsert(jar, TokenKey, token);
      && WellFormedJar(stored)
      && CookieValue(Render(stored), TokenKey) == Some(token)
      && CookieValue(Render(stored), PreferenceKey) == CookieValue(Render(jar), PreferenceKey)
  {
    var stored := Upsert(jar, TokenKey, token);
    UpsertWellFormed(jar, TokenKey, token);
    RenderedLookup(stored, TokenKey);
    RenderedLookup(stored, PreferenceKey);
    RenderedLookup(jar, PreferenceKey);
    LookupUpsert(jar, TokenKey, token, TokenKey);
    LookupUpsert(jar, TokenKey, token, PreferenceKey);
  }

  lemma TokenRemoved(jar: seq<Cookie>)
    requires WellFormedJar(jar)
    ensures var removed := Delete(jar, TokenKey);
      && WellFormedJar(removed)
      && CookieValue(Render(removed), TokenKey) == None
      && CookieValue(Render(removed), PreferenceKey) == CookieValue(Render(jar), PreferenceKey)
  {
    var removed := Delete(jar, TokenKey);
    DeleteWellFormed(jar, TokenKey);
    RenderedLookup(removed, TokenKey);
    RenderedLookup(removed, PreferenceKey);
    RenderedLookup(jar, PreferenceKey);
    LookupDelete(jar, TokenKey, TokenKey);
    LookupDelete(jar, TokenKey, PreferenceKey);
  }

  /** The page's `document.cookie`: the jar and a log of every assignment
      made to it. */
  class CookieJar {
    var cookies: seq<Cookie>
    ghost var writes: seq<CookieWrite>

    /** The browsing context starts with whatever cookies it already
        holds. */
    constructor (initial: seq<Cookie>)
      ensures cookies == initial && writes == []
    {
      cookies := initial;
      writes := [];
    }

    /** Reading `document.cookie`. */
    function Document(): string
      reads this
    {
      Render(cookies)
    }

    /** `setCookie(name, value, days)`. */
    method SetCookie(name: string, value: string, days: int)
      modifies this
      ensures writes == old(writes) + [Store(name, value, days)]
      ensures cookies == Apply(old(cookies), Store(name, value, days))
    {
      cookies := Apply(cookies, Store(name, value, days));
      writes := writes + [Store(name, value, days)];
    }

    /** `removeCookie(name)`. */
    method RemoveCookie(name: string)
      modifies this
      ensures writes == old(writes) + [Expire(name)]
      ensures cookies == Delete(old(cookies), name)
    {
      cookies := Apply(cookies, Expire(name));
      writes := writes + [Expire(name)];
    }

    /** `setRememberMeToken(token)`: 30 days under the token key. */
    method SetRememberMeToken(token: string)
      modifies this
      ensures writes == old(writes) + [Store(TokenKey, token, TokenDays)]
      ensures cookies == Upsert(old(cookies), TokenKey, token)
    {
      SetCookie(TokenKey, token, TokenDays);
    }

    /** `getRememberMeToken()`. */
    method GetRememberMeToken() returns (r: Option<string>)
      ensures r == CookieValue(Document(), TokenKey)
      ensures WellFormedJar(cookies) ==> r == Lookup(cookies, TokenKey)
    {
      if WellFormedJar(cookies) { RenderedLookup(cookies, TokenKey); }
      r := GetCookie(Render(cookies), TokenKey);
    }

    /** `removeRememberMeToken()`. */
    method RemoveRememberMeToken()
      modifies this
      ensures writes == old(writes) + [Expire(TokenKey)]
      ensures cookies == Delete(old(cookies), TokenKey)
    {
      RemoveCookie(TokenKey);
    }

    /** `setRememberMePreference(b)`: "true" or "false" for 365 days under
        the preference key. */
    method SetRememberMePreference(b: bool)
      modifies this
      ensures writes == old(writes) + [Store(PreferenceKey, BoolText(b), PreferenceDays)]
      ensures cookies == Upsert(old(cookies), PreferenceKey, BoolText(b))
    {
      SetCookie(PreferenceKey, BoolText(b), PreferenceDays);
    }

    /** `getRememberMePreference()`: true exactly when the stored preference
        is the text "true"; false when there is none. */
    method GetRememberMePreference() returns (b: bool)
      ensures b == PreferenceFrom(CookieValue(Document(), PreferenceKey))
      ensures WellFormedJar(cookies) ==> (b <==> Lookup(cookies, PreferenceKey) == Some("true"))
    {
      if WellFormedJar(cookies) { RenderedLookup(cookies, PreferenceKey); }
      var preference := GetCookie(Render(cookies), PreferenceKey);
      b := preference == Some("true");
    }
  }
}
