/** The JavaScript string operations the server relies on (`split`, `trim`,
    `join`, `includes`, `filter(Boolean)`, `replace(/\s+/g, '')`, number to
    string), written out over `seq<char>`, with the facts the other modules
    use about them. */
module Text {
  import opened Wrappers

  /** The characters `String.prototype.trim` and the regex class `\s` treat as
      white space: WhiteSpace and LineTerminator of ECMAScript. */
  predicate IsWhitespace(c: char) {
    c == ' ' || c == '\t' || c == '\n' || c == '\r' || c == '\U{000B}' || c == '\U{000C}'
    || c == '\U{00A0}' || c == '\U{1680}' || ('\U{2000}' <= c <= '\U{200A}')
    || c == '\U{2028}' || c == '\U{2029}' || c == '\U{202F}' || c == '\U{205F}'
    || c == '\U{3000}' || c == '\U{FEFF}'
  }

  /** The characters the regex `.` does not match (no `s` flag). */
  predicate IsLineTerminator(c: char) {
    c == '\n' || c == '\r' || c == '\U{2028}' || c == '\U{2029}'
  }

  /** A string value taken as a JavaScript condition: absent and "" are false. */
  predicate Truthy(o: Option<string>) {
    o.Some? && o.value != ""
  }

  /** `o || d` for an optional string and a string default. */
  function OrElse(o: Option<string>, d: string): string {
    if Truthy(o) then o.value else d
  }

  /** `a || b` for two optional strings. */
  function OrOption(a: Option<string>, b: Option<string>): Option<string> {
    if Truthy(a) then a else b
  }

  // ---------------------------------------------------------------- trim

  /** What is left once the leading white space is dropped. */
  function TrimStart(s: string): string
    decreases |s|
  {
    if s != [] && IsWhitespace(s[0]) then TrimStart(s[1..]) else s
  }

  /** What is left once the trailing white space is dropped. */
  function TrimEnd(s: string): string
    decreases |s|
  {
    if s != [] && IsWhitespace(s[|s| - 1]) then TrimEnd(s[..|s| - 1]) else s
  }

  /** `s.trim()`. */
  function Trim(s: string): string {
    TrimEnd(TrimStart(s))
  }

  /** `TrimStart` drops exactly the leading white space. */
  lemma {:induction false} TrimStartFacts(s: string)
    ensures |TrimStart(s)| <= |s| && TrimStart(s) == s[|s| - |TrimStart(s)|..]
    ensures forall i :: 0 <= i < |s| - |TrimStart(s)| ==> IsWhitespace(s[i])
    ensures TrimStart(s) == [] || !IsWhitespace(TrimStart(s)[0])
    decreases |s|
  {
    if s != [] && IsWhitespace(s[0]) {
      TrimStartFacts(s[1..]);
    }
  }

  /** `TrimEnd` drops exactly the trailing white space. */
  lemma {:induction false} TrimEndFacts(s: string)
    ensures |TrimEnd(s)| <= |s| && TrimEnd(s) == s[..|TrimEnd(s)|]
    ensures forall i :: |TrimEnd(s)| <= i < |s| ==> IsWhitespace(s[i])
    ensures TrimEnd(s) == [] || !IsWhitespace(TrimEnd(s)[|TrimEnd(s)| - 1])
    decreases |s|
  {
    if s != [] && IsWhitespace(s[|s| - 1]) {
      TrimEndFacts(s[..|s| - 1]);
    }
  }

  /** The positions `trim` cuts at: everything before `i` and from `j` on
      is white space. */
  lemma TrimSpan(s: string) returns (i: nat, j: nat)
    ensures i <= j <= |s| && Trim(s) == s[i..j]
    ensures forall k :: 0 <= k < i ==> IsWhitespace(s[k])
    ensures forall k :: j <= k < |s| ==> IsWhitespace(s[k])
  {
    var a := TrimStart(s);
    var b := TrimEnd(a);
    TrimStartFacts(s);
    TrimEndFacts(a);
    i := |s| - |a|;
    j := i + |b|;
    PrefixOfSuffix(s, i, |b|);
    forall k | j <= k < |s| ensures IsWhitespace(s[k]) {
      assert s[k] == a[k - i];
    }
  }

  /** Taking `n` after position `i` is the slice from `i` to `i + n`. */
  lemma PrefixOfSuffix(s: string, i: nat, n: nat)
    requires i + n <= |s|
    ensures s[i..][..n] == s[i..i + n]
  {
  }

  /** `trim` keeps a contiguous middle part of its input: everything before it
      and after it is white space, and it neither starts nor ends with white
      space. */
  lemma TrimIsMaximalCore(s: string)
    ensures exists i, j :: 0 <= i <= j <= |s| && Trim(s) == s[i..j]
                           && (forall k :: 0 <= k < i ==> IsWhitespace(s[k]))
                           && (forall k :: j <= k < |s| ==> IsWhitespace(s[k]))
    ensures Trim(s) == [] || (!IsWhitespace(Trim(s)[0]) && !IsWhitespace(Trim(s)[|Trim(s)| - 1]))
  {
    var i, j := TrimSpan(s);
    var a := TrimStart(s);
    var b := TrimEnd(a);
    TrimStartFacts(s);
    TrimEndFacts(a);
    if b != [] {
      assert b[0] == a[0];
    }
  }

  /** A text that starts and ends with a non-white-space character is its
      own trim. */
  lemma TrimKeepsBareText(s: string)
    requires s != [] && !IsWhitespace(s[0]) && !IsWhitespace(s[|s| - 1])
    ensures Trim(s) == s
  {
  }

  /** Trimming a string that has no surrounding white space changes nothing,
      and neither does trimming twice. */
  lemma TrimIdempotent(s: string)
    ensures Trim(Trim(s)) == Trim(s)
  {
    var t := Trim(s);
    TrimIsMaximalCore(s);
    if t != [] {
      assert TrimStart(t) == t;
      assert TrimEnd(t) == t;
    }
  }

  /** A leading white-space character disappears under `trim`. */
  lemma TrimDropsLeadingWhitespace(c: char, s: string)
    requires IsWhitespace(c)
    ensures Trim([c] + s) == Trim(s)
  {
    assert ([c] + s)[1..] == s;
  }

  /** Dropping leading white space from a concatenation: once the first part
      has something left, the second part is kept whole. */
  lemma {:induction false} TrimStartAppend(s: string, t: string)
    ensures TrimStart(s + t) == (if TrimStart(s) == [] then TrimStart(t) else TrimStart(s) + t)
    decreases |s|
  {
    if s == [] {
      assert s + t == t;
    } else if IsWhitespace(s[0]) {
      assert (s + t)[1..] == s[1..] + t;
      TrimStartAppend(s[1..], t);
    }
  }

  /** Trailing white space is ignored by `trim`. */
  lemma TrimDropsTrailingWhitespace(s: string, c: char)
    requires IsWhitespace(c)
    ensures Trim(s + [c]) == Trim(s)
  {
    TrimStartAppend(s, [c]);
    var a := TrimStart(s);
    if a != [] {
      assert (a + [c])[..|a + [c]| - 1] == a;
    }
  }

  /** `s.replace(/\s+/g, '')`: every white-space character removed. */
  function RemoveWhitespace(s: string): (r: string)
    ensures |r| <= |s|
    ensures forall i :: 0 <= i < |r| ==> !IsWhitespace(r[i])
    ensures forall i :: 0 <= i < |s| && !IsWhitespace(s[i]) ==> s[i] in r
    decreases |s|
  {
    if s == [] then []
    else if IsWhitespace(s[0]) then RemoveWhitespace(s[1..])
    else [s[0]] + RemoveWhitespace(s[1..])
  }

  /** Removing white space works piece by piece, so the characters kept stay
      in their order. */
  lemma {:induction false} RemoveWhitespaceAppend(a: string, b: string)
    ensures RemoveWhitespace(a + b) == RemoveWhitespace(a) + RemoveWhitespace(b)
    decreases |a|
  {
    if a == [] {
      assert a + b == b;
    } else {
      assert (a + b)[0] == a[0] && (a + b)[1..] == a[1..] + b;
      RemoveWhitespaceAppend(a[1..], b);
    }
  }

  /** Text without white space is left as it is. */
  lemma {:induction false} RemoveWhitespaceKeepsBare(s: string)
    requires forall i :: 0 <= i < |s| ==> !IsWhitespace(s[i])
    ensures RemoveWhitespace(s) == s
    decreases |s|
  {
    if s != [] {
      RemoveWhitespaceKeepsBare(s[1..]);
    }
  }

  /** Text made only of white space is removed entirely. */
  lemma {:induction false} RemoveWhitespaceDropsBlank(s: string)
    requires forall i :: 0 <= i < |s| ==> IsWhitespace(s[i])
    ensures RemoveWhitespace(s) == []
    decreases |s|
  {
    if s != [] {
      RemoveWhitespaceDropsBlank(s[1..]);
    }
  }

  // ------------------------------------------------------- split and join

  /** `s.split(sep)` for a one-character separator. Like JavaScript, "" splits
      to [""] and a separator at either end yields an empty piece there. */
  function Split(s: string, sep: char): (r: seq<string>)
    ensures |r| >= 1
    ensures forall i :: 0 <= i < |r| ==> sep !in r[i]
    decreases |s|
  {
    if s == [] then [""]
    else
      var rest := Split(s[1..], sep);
      if s[0] == sep then [""] + rest
      else [[s[0]] + rest[0]] + rest[1..]
  }

  /** `xs.join(sep)`. */
  function Join(xs: seq<string>, sep: string): string
    decreases |xs|
  {
    if |xs| == 0 then ""
    else if |xs| == 1 then xs[0]
    else xs[0] + sep + Join(xs[1..], sep)
  }

  /** `s.endsWith(p)`. */
  predicate EndsWith(s: string, p: string) {
    |p| <= |s| && s[|s| - |p|..] == p
  }

  /** A joined list starts with its first two elements and the separator
      between them. */
  lemma JoinStartsWithFirstTwo(xs: seq<string>, sep: string)
    requires |xs| >= 2
    ensures StartsWith(Join(xs, sep), xs[0] + sep + xs[1])
  {
    var rest := Join(xs[1..], sep);
    assert StartsWith(rest, xs[1]) by {
      if |xs| > 2 {
        assert rest == xs[1] + sep + Join(xs[2..], sep) by {
          assert xs[1..][1..] == xs[2..];
        }
      }
    }
    assert Join(xs, sep) == xs[0] + sep + rest;
    assert (xs[0] + sep + rest)[..|xs[0] + sep + xs[1]|] == xs[0] + sep + rest[..|xs[1]|];
  }

  /** A joined list ends with its last two elements and the separator
      between them. */
  lemma {:induction false} JoinEndsWithLastTwo(xs: seq<string>, sep: string)
    requires |xs| >= 2
    ensures EndsWith(Join(xs, sep), xs[|xs| - 2] + sep + xs[|xs| - 1])
    decreases |xs|
  {
    var tail := xs[|xs| - 2] + sep + xs[|xs| - 1];
    if |xs| == 2 {
      assert Join(xs, sep) == xs[0] + sep + Join(xs[1..], sep);
      assert Join(xs[1..], sep) == xs[1];
    } else {
      JoinEndsWithLastTwo(xs[1..], sep);
      assert xs[1..][|xs[1..]| - 2] == xs[|xs| - 2] && xs[1..][|xs[1..]| - 1] == xs[|xs| - 1];
      var rest := Join(xs[1..], sep);
      var whole := xs[0] + sep + rest;
      assert Join(xs, sep) == whole;
      assert whole[|whole| - |tail|..] == rest[|rest| - |tail|..];
    }
  }

  /** Splitting and joining again with the same separator restores the text. */
  lemma {:induction false} JoinSplit(s: string, sep: char)
    ensures Join(Split(s, sep), [sep]) == s
    decreases |s|
  {
    if s != [] {
      var rest := Split(s[1..], sep);
      JoinSplit(s[1..], sep);
      if s[0] == sep {
        assert Split(s, sep) == [""] + rest;
        JoinCons("", rest, [sep]);
      } else {
        assert Split(s, sep) == [[s[0]] + rest[0]] + rest[1..];
        JoinConsHead([s[0]], rest[0], rest[1..], [sep]);
        assert [rest[0]] + rest[1..] == rest;
      }
      assert s == [s[0]] + s[1..];
    }
  }

  /** Joining a list of at least two puts the separator after its head. */
  lemma JoinCons(x: string, ys: seq<string>, sep: string)
    requires |ys| >= 1
    ensures Join([x] + ys, sep) == x + sep + Join(ys, sep)
  {
    assert ([x] + ys)[1..] == ys;
  }

  /** Joining pieces that do not contain the separator and splitting again
      gives the pieces back. */
  lemma {:induction false} SplitJoin(xs: seq<string>, sep: char)
    requires |xs| >= 1
    requires forall i :: 0 <= i < |xs| ==> sep !in xs[i]
    ensures Split(Join(xs, [sep]), sep) == xs
    decreases |xs|, |xs[0]|
  {
    if |xs| == 1 {
      SplitWithoutSeparator(xs[0], sep);
    } else if xs[0] == "" {
      SplitJoin(xs[1..], sep);
      var s := Join(xs, [sep]);
      assert s == [sep] + Join(xs[1..], [sep]);
      assert s[1..] == Join(xs[1..], [sep]);
      assert [""] + xs[1..] == xs;
    } else {
      var ys := [xs[0][1..]] + xs[1..];
      assert ys[1..] == xs[1..];
      assert sep !in ys[0];
      SplitJoin(ys, sep);
      var s := Join(xs, [sep]);
      assert Join(ys, [sep]) == xs[0][1..] + [sep] + Join(xs[1..], [sep]);
      assert s == [xs[0][0]] + Join(ys, [sep]);
      assert s[1..] == Join(ys, [sep]);
      assert [xs[0][0]] + ys[0] == xs[0];
      assert [[xs[0][0]] + ys[0]] + ys[1..] == xs;
    }
  }

  /** A string without the separator splits to itself alone. */
  lemma {:induction false} SplitWithoutSeparator(s: string, sep: char)
    requires sep !in s
    ensures Split(s, sep) == [s]
    decreases |s|
  {
    if s != [] {
      SplitWithoutSeparator(s[1..], sep);
      assert [s[0]] + s[1..] == s;
    }
  }

  // ------------------------------------------------- the comma-list idiom

  /** `xs.map(x => x.trim())`. */
  function TrimAll(xs: seq<string>): (r: seq<string>)
    ensures |r| == |xs| && forall i :: 0 <= i < |xs| ==> r[i] == Trim(xs[i])
  {
    seq(|xs|, i requires 0 <= i < |xs| => Trim(xs[i]))
  }

  /** `xs.filter(Boolean)`: the non-empty strings, in their order. */
  function DropEmpty(xs: seq<string>): (r: seq<string>)
    ensures |r| <= |xs|
    ensures forall i :: 0 <= i < |r| ==> r[i] != "" && r[i] in xs
    ensures forall i :: 0 <= i < |xs| && xs[i] != "" ==> xs[i] in r
    decreases |xs|
  {
    if xs == [] then []
    else if xs[0] == "" then DropEmpty(xs[1..])
    else [xs[0]] + DropEmpty(xs[1..])
  }

  /** `s.split(',').map(x => x.trim()).filter(Boolean)`: the list of
      addresses a comma-separated field names. */
  function CommaList(s: string): (r: seq<string>)
    ensures forall i :: 0 <= i < |r| ==> r[i] != "" && ',' !in r[i]
  {
    var pieces := Split(s, ',');
    var r := DropEmpty(TrimAll(pieces));
    forall i | 0 <= i < |r| ensures ',' !in r[i] {
      var j :| 0 <= j < |pieces| && r[i] == Trim(pieces[j]);
      TrimIsMaximalCore(pieces[j]);
    }
    r
  }

  /** Every address in a comma list has no white space at either end. */
  lemma CommaListTrimmed(s: string)
    ensures forall i :: 0 <= i < |CommaList(s)| ==> Trim(CommaList(s)[i]) == CommaList(s)[i]
  {
    var pieces := Split(s, ',');
    var r := CommaList(s);
    forall i | 0 <= i < |r| ensures Trim(r[i]) == r[i] {
      var j :| 0 <= j < |pieces| && r[i] == Trim(pieces[j]);
      TrimIdempotent(pieces[j]);
    }
  }

  /** `xs.join(', ')` read back with `CommaList` gives the same addresses,
      provided each is non-empty, comma-free and already trimmed. */
  lemma CommaListOfJoin(xs: seq<string>)
    requires forall i :: 0 <= i < |xs| ==> xs[i] != "" && ',' !in xs[i] && Trim(xs[i]) == xs[i]
    ensures CommaList(Join(xs, ", ")) == xs
  {
    if xs == [] {
      assert Split("", ',') == [""];
      assert TrimAll([""]) == [""];
    } else {
      var joined := Join(xs, ", ");
      var padded := Padded(xs);
      JoinPadded(xs);
      PaddedTrims(xs);
      SplitJoin(padded, ',');
      assert Split(joined, ',') == padded;
      DropEmptyKeepsNonEmpty(xs);
      assert CommaList(joined) == DropEmpty(TrimAll(padded));
    }
  }

  /** The pieces `xs.join(', ')` splits into at the commas: every piece but the
      first carries the space that followed its comma. */
  function Padded(xs: seq<string>): (r: seq<string>)
    requires |xs| >= 1
    ensures |r| == |xs| && r[0] == xs[0]
    ensures forall i :: 0 < i < |xs| ==> r[i] == [' '] + xs[i]
  {
    [xs[0]] + seq(|xs| - 1, i requires 0 <= i < |xs| - 1 => " " + xs[i + 1])
  }

  /** Trimming the padded pieces of trimmed addresses gives the addresses. */
  lemma PaddedTrims(xs: seq<string>)
    requires |xs| >= 1
    requires forall i :: 0 <= i < |xs| ==> ',' !in xs[i] && Trim(xs[i]) == xs[i]
    ensures forall i :: 0 <= i < |xs| ==> ',' !in Padded(xs)[i]
    ensures TrimAll(Padded(xs)) == xs
  {
    var padded := Padded(xs);
    forall i | 0 <= i < |xs| ensures Trim(padded[i]) == xs[i] && ',' !in padded[i] {
      if i > 0 {
        TrimDropsLeadingWhitespace(' ', xs[i]);
      }
    }
  }

  /** Joining with ", " is joining with "," after a space is put in front of
      every piece but the first. */
  lemma {:induction false} JoinPadded(xs: seq<string>)
    requires |xs| >= 1
    ensures Join(xs, ", ") == Join(Padded(xs), ",")
    decreases |xs|
  {
    var padded := Padded(xs);
    if |xs| > 1 {
      var tail := xs[1..];
      JoinPadded(tail);
      var paddedTail := Padded(tail);
      assert padded[1..] == [" " + tail[0]] + paddedTail[1..];
      JoinConsHead(" ", tail[0], paddedTail[1..], ",");
      assert paddedTail == [tail[0]] + paddedTail[1..];
    }
  }

  /** Putting a prefix on the first piece puts it on the joined text. */
  lemma JoinConsHead(p: string, x: string, rest: seq<string>, sep: string)
    ensures Join([p + x] + rest, sep) == p + Join([x] + rest, sep)
  {
    if |rest| > 0 {
      assert ([p + x] + rest)[1..] == rest;
      assert ([x] + rest)[1..] == rest;
    }
  }

  /** `filter(Boolean)` keeps a list without empty strings as it is. */
  lemma {:induction false} DropEmptyKeepsNonEmpty(xs: seq<string>)
    requires forall i :: 0 <= i < |xs| ==> xs[i] != ""
    ensures DropEmpty(xs) == xs
    decreases |xs|
  {
    if xs != [] {
      DropEmptyKeepsNonEmpty(xs[1..]);
      assert [xs[0]] + xs[1..] == xs;
    }
  }

  // ------------------------------------------------------------ includes

  /** `s.startsWith(p)`. */
  predicate StartsWith(s: string, p: string) {
    |p| <= |s| && s[..|p|] == p
  }

  /** `sub` occurs in `s` at position `i`. */
  predicate OccursAt(s: string, sub: string, i: int) {
    0 <= i && i + |sub| <= |s| && s[i..i + |sub|] == sub
  }

  /** `s.includes(sub)`, searched from the left. */
  predicate Contains(s: string, sub: string)
    decreases |s|
  {
    StartsWith(s, sub) || (s != [] && Contains(s[1..], sub))
  }

  /** `Contains` holds exactly when the substring occurs at some position. */
  lemma {:induction false} ContainsIff(s: string, sub: string)
    ensures Contains(s, sub) <==> exists i :: OccursAt(s, sub, i)
    decreases |s|
  {
    if StartsWith(s, sub) {
      assert OccursAt(s, sub, 0);
    } else if s == [] {
      forall i | OccursAt(s, sub, i) ensures false { }
    } else {
      ContainsIff(s[1..], sub);
      if exists i :: OccursAt(s[1..], sub, i) {
        var i :| OccursAt(s[1..], sub, i);
        assert OccursAt(s, sub, i + 1);
      }
      if exists i :: OccursAt(s, sub, i) {
        var i :| OccursAt(s, sub, i);
        assert i != 0;
        assert OccursAt(s[1..], sub, i - 1);
      }
    }
  }

  /** A text without the first character of `sub` does not contain `sub`. */
  lemma AbsentWithoutFirstChar(s: string, sub: string)
    requires |sub| > 0 && sub[0] !in s
    ensures !Contains(s, sub)
  {
    ContainsIff(s, sub);
    forall i | OccursAt(s, sub, i) ensures false { }
  }

  // ------------------------------------------------------ number to text

  /** The decimal digits of a natural number, as `String(n)` writes them. */
  function NatToString(n: nat): (r: string)
    ensures |r| >= 1 && forall i :: 0 <= i < |r| ==> '0' <= r[i] <= '9'
    ensures |r| > 1 ==> r[0] != '0'
    decreases n
  {
    var d := "0123456789"[n % 10];
    if n < 10 then [d] else NatToString(n / 10) + [d]
  }

  /** The number a string of decimal digits denotes. */
  function DigitsValue(s: string): nat
    requires forall i :: 0 <= i < |s| ==> '0' <= s[i] <= '9'
    decreases |s|
  {
    if s == [] then 0 else DigitsValue(s[..|s| - 1]) * 10 + (s[|s| - 1] as int - '0' as int)
  }

  /** Reading the digits back gives the number. */
  lemma {:induction false} NatToStringValue(n: nat)
    ensures DigitsValue(NatToString(n)) == n
    decreases n
  {
    var r := NatToString(n);
    var d := "0123456789"[n % 10];
    assert d as int - '0' as int == n % 10;
    if n >= 10 {
      NatToStringValue(n / 10);
      assert r[..|r| - 1] == NatToString(n / 10);
    }
  }

  /** Different numbers are written differently. */
  lemma NatToStringInjective(a: nat, b: nat)
    requires a != b
    ensures NatToString(a) != NatToString(b)
  {
    NatToStringValue(a);
    NatToStringValue(b);
  }

  /** A text cut at the first occurrence of a mark: when neither head holds
      the mark, equal texts have equal heads and equal tails. */
  lemma SplitAtMark(x1: string, y1: string, x2: string, y2: string, mark: char)
    requires forall k :: 0 <= k < |x1| ==> x1[k] != mark
    requires forall k :: 0 <= k < |x2| ==> x2[k] != mark
    ensures x1 + [mark] + y1 == x2 + [mark] + y2 ==> x1 == x2 && y1 == y2
  {
    var u := x1 + [mark] + y1;
    var v := x2 + [mark] + y2;
    if u == v {
      assert u[|x1|] == mark && v[|x2|] == mark;
      assert forall k :: 0 <= k < |x1| ==> u[k] != mark;
      assert forall k :: 0 <= k < |x2| ==> v[k] != mark;
      assert |x1| == |x2|;
      assert x1 == u[..|x1|] && x2 == v[..|x2|];
      assert y1 == u[|x1| + 1..] && y2 == v[|x2| + 1..];
    }
  }

  /** `String(n)` for an integer. */
  function IntToString(n: int): string {
    if n < 0 then "-" + NatToString(-n) else NatToString(n)
  }

  /** ASCII letters folded to lower case, other characters kept. */
  function LowerAscii(s: string): (r: string)
    ensures |r| == |s|
  {
    seq(|s|, i requires 0 <= i < |s| => if 'A' <= s[i] <= 'Z' then (s[i] as int + 32) as char else s[i])
  }
}
