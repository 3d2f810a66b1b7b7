/**
 * `MemoryViewer`: the escaping and link rules of the exported HTML page, the photo carousel,
 * the download file name and the star button.
 */
module MemoryViewer {
  import opened Wrappers
  import opened Seqs
  import opened Text
  import opened Model
  import opened Store

  // ---------------------------------------------------------------------------------------
  // HTML escaping

  /** Four global replacements in a row, `&` first, with the replacement texts as parameters. */
  function EscapeWith(s: string, amp: string, lt: string, gt: string, quot: string): string {
    ReplaceChar(ReplaceChar(ReplaceChar(ReplaceChar(s, '&', amp), '<', lt), '>', gt), '"', quot)
  }

  /** `escapeHtml`. */
  function EscapeHtml(s: string): string {
    EscapeWith(s, "&amp;", "&lt;", "&gt;", "&quot;")
  }

  /** What one character becomes in the escaped text. */
  function EscapeChar(c: char): string {
    if c == '&' then "&amp;"
    else if c == '<' then "&lt;"
    else if c == '>' then "&gt;"
    else if c == '"' then "&quot;"
    else [c]
  }

  lemma {:induction false} ReplaceCharAppend(a: string, b: string, c: char, r: string)
    ensures ReplaceChar(a + b, c, r) == ReplaceChar(a, c, r) + ReplaceChar(b, c, r)
    decreases |a|
  {
    if a == [] {
      assert a + b == b;
    } else {
      assert (a + b)[1..] == a[1..] + b;
      ReplaceCharAppend(a[1..], b, c, r);
    }
  }

  /** Replacing a character that does not occur changes nothing. */
  lemma {:induction false} ReplaceAbsent(s: string, c: char, r: string)
    requires c !in s
    ensures ReplaceChar(s, c, r) == s
    decreases |s|
  {
    if s != [] {
      ReplaceAbsent(s[1..], c, r);
    }
  }

  lemma ReplaceCharSingle(c: char, x: char, r: string)
    ensures ReplaceChar([c], x, r) == if c == x then r else [c]
  {
    assert [c][1..] == [];
  }

  /**
   * On one character the chain gives that character's replacement text, as long as no
   * replacement text holds a character replaced after it.
   */
  lemma EscapeWithChar(c: char, amp: string, lt: string, gt: string, quot: string)
    requires '<' !in amp && '>' !in amp && '"' !in amp
    requires '>' !in lt && '"' !in lt && '"' !in gt
    ensures EscapeWith([c], amp, lt, gt, quot) ==
      if c == '&' then amp else if c == '<' then lt else if c == '>' then gt
      else if c == '"' then quot else [c]
  {
    ReplaceCharSingle(c, '&', amp);
    if c == '&' {
      ReplaceAbsent(amp, '<', lt);
      ReplaceAbsent(amp, '>', gt);
      ReplaceAbsent(amp, '"', quot);
    } else {
      ReplaceCharSingle(c, '<', lt);
      if c == '<' {
        ReplaceAbsent(lt, '>', gt);
        ReplaceAbsent(lt, '"', quot);
      } else {
        ReplaceCharSingle(c, '>', gt);
        if c == '>' {
          ReplaceAbsent(gt, '"', quot);
        } else {
          ReplaceCharSingle(c, '"', quot);
        }
      }
    }
  }

  lemma EscapeHtmlChar(c: char)
    ensures EscapeHtml([c]) == EscapeChar(c)
  {
    EscapeWithChar(c, "&amp;", "&lt;", "&gt;", "&quot;");
  }

  /** Escaping works character by character. */
  lemma EscapeHtmlAppend(a: string, b: string)
    ensures EscapeHtml(a + b) == EscapeHtml(a) + EscapeHtml(b)
  {
    ReplaceCharAppend(a, b, '&', "&amp;");
    var a1, b1 := ReplaceChar(a, '&', "&amp;"), ReplaceChar(b, '&', "&amp;");
    ReplaceCharAppend(a1, b1, '<', "&lt;");
    var a2, b2 := ReplaceChar(a1, '<', "&lt;"), ReplaceChar(b1, '<', "&lt;");
    ReplaceCharAppend(a2, b2, '>', "&gt;");
    var a3, b3 := ReplaceChar(a2, '>', "&gt;"), ReplaceChar(b2, '>', "&gt;");
    ReplaceCharAppend(a3, b3, '"', "&quot;");
  }

  lemma EscapeHtmlCons(s: string)
    requires s != []
    ensures EscapeHtml(s) == EscapeChar(s[0]) + EscapeHtml(s[1..])
  {
    assert s == [s[0]] + s[1..];
    EscapeHtmlAppend([s[0]], s[1..]);
    EscapeHtmlChar(s[0]);
  }

  /** Reading the four entities back as the characters they stand for. */
  function Unescape(s: string): string
    decreases |s|
  {
    if s == [] then []
    else if OccursAt(s, "&amp;", 0) then "&" + Unescape(s[5..])
    else if OccursAt(s, "&lt;", 0) then "<" + Unescape(s[4..])
    else if OccursAt(s, "&gt;", 0) then ">" + Unescape(s[4..])
    else if OccursAt(s, "&quot;", 0) then "\"" + Unescape(s[6..])
    else [s[0]] + Unescape(s[1..])
  }

  /** Decoding stops at the end of each escaped character. */
  lemma UnescapeCons(c: char, rest: string)
    ensures Unescape(EscapeChar(c) + rest) == [c] + Unescape(rest)
  {
    if c == '&' {
      UnescapeAmp(rest);
    } else if c == '<' {
      UnescapeLt(rest);
    } else if c == '>' {
      UnescapeGt(rest);
    } else if c == '"' {
      UnescapeQuot(rest);
    } else {
      UnescapePlain(c, rest);
    }
  }

  lemma UnescapePlain(c: char, rest: string)
    requires c != '&'
    ensures Unescape([c] + rest) == [c] + Unescape(rest)
  {
    var x := [c] + rest;
    assert x[0] == c;
    assert !OccursAt(x, "&amp;", 0) && !OccursAt(x, "&lt;", 0);
    assert !OccursAt(x, "&gt;", 0) && !OccursAt(x, "&quot;", 0);
    assert x[1..] == rest;
  }

  lemma UnescapeAmp(rest: string)
    ensures Unescape("&amp;" + rest) == "&" + Unescape(rest)
  {
    var x := "&amp;" + rest;
    assert x[..5] == "&amp;" && x[5..] == rest;
  }

  lemma UnescapeLt(rest: string)
    ensures Unescape("&lt;" + rest) == "<" + Unescape(rest)
  {
    var x := "&lt;" + rest;
    assert x[1] == 'l';
    assert !OccursAt(x, "&amp;", 0);
    assert x[..4] == "&lt;" && x[4..] == rest;
  }

  lemma UnescapeGt(rest: string)
    ensures Unescape("&gt;" + rest) == ">" + Unescape(rest)
  {
    var x := "&gt;" + rest;
    assert x[1] == 'g';
    assert !OccursAt(x, "&amp;", 0) && !OccursAt(x, "&lt;", 0);
    assert x[..4] == "&gt;" && x[4..] == rest;
  }

  lemma UnescapeQuot(rest: string)
    ensures Unescape("&quot;" + rest) == "\"" + Unescape(rest)
  {
    var x := "&quot;" + rest;
    assert x[1] == 'q';
    assert !OccursAt(x, "&amp;", 0) && !OccursAt(x, "&lt;", 0) && !OccursAt(x, "&gt;", 0);
    assert x[..6] == "&quot;" && x[6..] == rest;
  }

  /** Decoding the entities of an escaped text gives the text back. */
  lemma {:induction false} UnescapeEscapeHtml(s: string)
    ensures Unescape(EscapeHtml(s)) == s
    decreases |s|
  {
    if s == [] {
      assert EscapeHtml(s) == [];
    } else {
      EscapeHtmlCons(s);
      UnescapeEscapeHtml(s[1..]);
      UnescapeCons(s[0], EscapeHtml(s[1..]));
      assert s == [s[0]] + s[1..];
    }
  }

  /** No `<`, `>` or `"`: what cannot open a tag or close an attribute. */
  predicate NoMarkup(s: string) {
    forall i :: 0 <= i < |s| ==> s[i] != '<' && s[i] != '>' && s[i] != '"'
  }

  /** Escaped text contains no `<`, `>` or `"`. */
  lemma {:induction false} EscapeHtmlNoMarkup(s: string)
    ensures NoMarkup(EscapeHtml(s))
    decreases |s|
  {
    if s == [] {
      assert EscapeHtml(s) == [];
    } else {
      EscapeHtmlCons(s);
      EscapeHtmlNoMarkup(s[1..]);
      var e, rest := EscapeChar(s[0]), EscapeHtml(s[1..]);
      forall i | 0 <= i < |e + rest|
        ensures (e + rest)[i] != '<' && (e + rest)[i] != '>' && (e + rest)[i] != '"'
      {
        if i >= |e| {
          assert (e + rest)[i] == rest[i - |e|];
        }
      }
    }
  }

  /** Position `i` of `s` starts one of the four entities. */
  predicate EntityAt(s: string, i: nat) {
    OccursAt(s, "&amp;", i) || OccursAt(s, "&lt;", i) || OccursAt(s, "&gt;", i) || OccursAt(s, "&quot;", i)
  }

  lemma OccursAtShift(p: string, q: string, e: string, i: nat)
    requires i >= |p| && OccursAt(q, e, i - |p|)
    ensures OccursAt(p + q, e, i)
  {
    assert (p + q)[i..i + |e|] == q[i - |p|..i - |p| + |e|];
  }

  lemma OccursAtFront(e: string, q: string)
    ensures OccursAt(e + q, e, 0)
  {
    assert (e + q)[..|e|] == e;
  }

  /** Every `&` of escaped text starts an entity. */
  lemma {:induction false} EscapeHtmlAmpersands(s: string)
    ensures forall i :: 0 <= i < |EscapeHtml(s)| && EscapeHtml(s)[i] == '&' ==> EntityAt(EscapeHtml(s), i)
    decreases |s|
  {
    if s == [] {
      assert EscapeHtml(s) == [];
    } else {
      EscapeHtmlCons(s);
      EscapeHtmlAmpersands(s[1..]);
      var e, rest := EscapeChar(s[0]), EscapeHtml(s[1..]);
      forall i | 0 <= i < |e + rest| && (e + rest)[i] == '&'
        ensures EntityAt(e + rest, i)
      {
        if i < |e| {
          assert i == 0;
          OccursAtFront(e, rest);
        } else {
          assert rest[i - |e|] == '&';
          if OccursAt(rest, "&amp;", i - |e|) {
            OccursAtShift(e, rest, "&amp;", i);
          } else if OccursAt(rest, "&lt;", i - |e|) {
            OccursAtShift(e, rest, "&lt;", i);
          } else if OccursAt(rest, "&gt;", i - |e|) {
            OccursAtShift(e, rest, "&gt;", i);
          } else {
            OccursAtShift(e, rest, "&quot;", i);
          }
        }
      }
    }
  }

  // ---------------------------------------------------------------------------------------
  // Link targets

  /** `/^https?:\/\//i`. */
  predicate HasHttpPrefix(t: string) {
    || (|t| >= 7 && Lower(t[..7]) == "http://")
    || (|t| >= 8 && Lower(t[..8]) == "https://")
  }

  /** `safeLinkHref`: the trimmed link when it is http or https, otherwise https added in front. */
  function SafeLinkHref(u: string): (r: string)
    ensures HasHttpPrefix(r)
    ensures Trimmed(r)
    ensures r == Trim(u) || r == "https://" + Trim(u)
  {
    var t := Trim(u);
    if HasHttpPrefix(t) then t
    else
      HttpsPrefixed(t);
      "https://" + t
  }

  lemma HttpsPrefixed(t: string)
    requires Trimmed(t)
    ensures HasHttpPrefix("https://" + t) && Trimmed("https://" + t)
  {
    var x := "https://" + t;
    assert x[..8] == "https://";
    assert Lower("https://") == "https://";
    assert x[0] == 'h';
    assert x[|x| - 1] == if t == [] then '/' else t[|t| - 1];
  }

  /** A link made safe once is left alone the second time. */
  lemma SafeLinkHrefIdempotent(u: string)
    ensures SafeLinkHref(SafeLinkHref(u)) == SafeLinkHref(u)
  {
    TrimOfTrimmed(SafeLinkHref(u));
  }

  /** A link with the prefix keeps its text, trimmed; one without gets `https://` in front. */
  lemma SafeLinkHrefKeeps(u: string)
    ensures HasHttpPrefix(Trim(u)) ==> SafeLinkHref(u) == Trim(u)
    ensures !HasHttpPrefix(Trim(u)) ==> SafeLinkHref(u) == "https://" + Trim(u)
  {
  }

  /**
   * The `href` written into the exported page: it cannot end the attribute early, and it
   * reads back as an http or https address.
   */
  lemma ExportedHref(u: string)
    ensures NoMarkup(EscapeHtml(SafeLinkHref(u)))
    ensures HasHttpPrefix(Unescape(EscapeHtml(SafeLinkHref(u))))
  {
    EscapeHtmlNoMarkup(SafeLinkHref(u));
    UnescapeEscapeHtml(SafeLinkHref(u));
  }

  // ---------------------------------------------------------------------------------------
  // The photo carousel (shown when there are at least two photos)

  /** The Previous button: from the first photo to the last, otherwise one back. */
  function PrevImage(i: nat, n: nat): (r: nat)
    requires n >= 1
    ensures i < n ==> r < n
  {
    if i == 0 then n - 1 else i - 1
  }

  /** The Next button: from the last photo to the first, otherwise one on. */
  function NextImage(i: nat, n: nat): (r: nat)
    requires n >= 1
    ensures i < n ==> r < n
  {
    if i == n - 1 then 0 else i + 1
  }

  /** On a valid index the buttons step round the photos, and each undoes the other. */
  lemma CarouselWraps(i: nat, n: nat)
    requires i < n
    ensures PrevImage(i, n) == (i + n - 1) % n
    ensures NextImage(i, n) == (i + 1) % n
    ensures NextImage(PrevImage(i, n), n) == i
    ensures PrevImage(NextImage(i, n), n) == i
  {
    if i + 1 == n {
      ModOfSelf(n);
    } else {
      ModOfSmall(i + 1, n);
    }
    if i == 0 {
      ModOfSmall(n - 1, n);
    } else {
      ModOfShift(i - 1, n);
    }
  }

  lemma ModOfSmall(x: int, n: int)
    requires 0 <= x < n
    ensures x % n == x
  {
  }

  lemma ModOfSelf(n: int)
    requires n > 0
    ensures n % n == 0
  {
  }

  lemma ModOfShift(x: int, n: int)
    requires 0 <= x < n
    ensures (x + n) % n == x
  {
  }

  // ---------------------------------------------------------------------------------------
  // The download file name

  /** `replace(/\s+/g, '-')`: every run of white space becomes one `-`. */
  function CollapseSpaces(s: string): string
    decreases |s|
  {
    if s == [] then []
    else if IsSpace(s[0]) then "-" + CollapseSpaces(TrimStart(s[1..]))
    else [s[0]] + CollapseSpaces(s[1..])
  }

  /** Collapsing leaves no white space. */
  lemma {:induction false} CollapseSpacesNoSpace(s: string)
    ensures forall i :: 0 <= i < |CollapseSpaces(s)| ==> !IsSpace(CollapseSpaces(s)[i])
    decreases |s|
  {
    if s != [] {
      var rest := if IsSpace(s[0]) then TrimStart(s[1..]) else s[1..];
      var head: string := if IsSpace(s[0]) then "-" else [s[0]];
      CollapseSpacesNoSpace(rest);
      NoSpaceAppend(head, CollapseSpaces(rest));
    }
  }

  lemma NoSpaceAppend(a: string, b: string)
    requires forall i :: 0 <= i < |a| ==> !IsSpace(a[i])
    requires forall i :: 0 <= i < |b| ==> !IsSpace(b[i])
    ensures forall i :: 0 <= i < |a + b| ==> !IsSpace((a + b)[i])
  {
    forall i | 0 <= i < |a + b|
      ensures !IsSpace((a + b)[i])
    {
      if i >= |a| {
        assert (a + b)[i] == b[i - |a|];
      }
    }
  }

  /** Text without white space is left as it is. */
  lemma {:induction false} CollapseSpacesKeeps(s: string)
    requires forall i :: 0 <= i < |s| ==> !IsSpace(s[i])
    ensures CollapseSpaces(s) == s
    decreases |s|
  {
    if s != [] {
      CollapseSpacesKeeps(s[1..]);
    }
  }

  /** The characters other than white space come through in order: only the runs are replaced. */
  lemma {:induction false} CollapseSpacesContent(s: string)
    ensures Filter(CollapseSpaces(s), (c: char) => c != '-') == Filter(s, (c: char) => !IsSpace(c) && c != '-')
    decreases |s|
  {
    var p := (c: char) => c != '-';
    var q := (c: char) => !IsSpace(c) && c != '-';
    if s != [] {
      if IsSpace(s[0]) {
        var t := TrimStart(s[1..]);
        CollapseSpacesContent(t);
        FilterAppend("-", CollapseSpaces(t), p);
        assert s[1..] == s[1..][..|s| - 1 - |t|] + t;
        FilterAppend(s[1..][..|s| - 1 - |t|], t, q);
        FilterNone(s[1..][..|s| - 1 - |t|], q);
      } else {
        CollapseSpacesContent(s[1..]);
        FilterAppend([s[0]], CollapseSpaces(s[1..]), p);
      }
    }
  }

  lemma {:induction false} FilterNone(s: string, q: char -> bool)
    requires AllSpace(s)
    requires forall c :: IsSpace(c) ==> !q(c)
    ensures Filter(s, q) == []
    decreases |s|
  {
    if s != [] {
      FilterNone(s[1..], q);
    }
  }

  /** The stem of `memory-<stem>.html`: the title or `untitled`, white space collapsed, 30 characters at most. */
  function FileStem(title: string): (r: string)
    ensures |r| <= 30
  {
    var d := CollapseSpaces(if title == "" then "untitled" else title);
    if |d| <= 30 then d else d[..30]
  }

  /**
   * The stem is never empty and holds no white space; a title without white space of at
   * most 30 characters is its own stem, and the stem of a stem is itself.
   */
  lemma FileStemShape(title: string)
    ensures FileStem(title) != ""
    ensures forall i :: 0 <= i < |FileStem(title)| ==> !IsSpace(FileStem(title)[i])
    ensures title != "" && |title| <= 30 && (forall i :: 0 <= i < |title| ==> !IsSpace(title[i])) ==>
      FileStem(title) == title
    ensures FileStem(FileStem(title)) == FileStem(title)
  {
    FileStemNoSpace(title);
    if title != "" && forall i :: 0 <= i < |title| ==> !IsSpace(title[i]) {
      CollapseSpacesKeeps(title);
    }
    CollapseSpacesKeeps(FileStem(title));
  }

  lemma FileStemNoSpace(title: string)
    ensures FileStem(title) != ""
    ensures forall i :: 0 <= i < |FileStem(title)| ==> !IsSpace(FileStem(title)[i])
  {
    var base := if title == "" then "untitled" else title;
    CollapseSpacesNoSpace(base);
    assert CollapseSpaces(base) != [] by {
      if IsSpace(base[0]) {
      } else {
      }
    }
  }

  // ---------------------------------------------------------------------------------------
  // The star button

  /** `{ starred: !(memory.starred ?? false) }`. */
  function StarPatch(m: Memory): MemoryPatch {
    NoMemoryChanges.(starred := Some(Some(!Flag(m.starred))))
  }

  /** The star flips, nothing else changes, and a second press restores the reading. */
  lemma StarFlips(m: Memory)
    ensures MergeMemory(m, StarPatch(m)) == m.(starred := Some(!Flag(m.starred)))
    ensures var m1 := MergeMemory(m, StarPatch(m));
      Flag(MergeMemory(m1, StarPatch(m1)).starred) == Flag(m.starred)
  {
  }

  /** The star button issued against the store. */
  method ToggleStar(store: MemoryStore, m: Memory)
    modifies store
    ensures store.Current() == UpdateMemoryStep(old(store.Current()), m.id, StarPatch(m))
  {
    store.UpdateMemory(m.id, StarPatch(m));
  }
}
