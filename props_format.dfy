/**
 * The pure side of `SortableProperties`: an insertion-ordered string
 * table (the `LinkedHashMap` behind it), the line format read by `load`
 * and written by `store`, and the display lines of `list`.
 */
module PropsFormat {
  import opened Wrappers

  // ------------------------------------------------------ the ordered table

  /** `keys` lists the keys in first-insertion order; `table` maps them to values. */
  datatype Props = Props(keys: seq<string>, table: map<string, string>)

  predicate Distinct(ks: seq<string>)
  {
    forall i, j :: 0 <= i < j < |ks| ==> ks[i] != ks[j]
  }

  ghost predicate Wf(p: Props)
  {
    Distinct(p.keys) && forall k :: k in p.table <==> k in p.keys
  }

  const Empty: Props := Props([], map[])

  /** `put(k, v)`: a new key goes to the end; an existing key keeps its place and gets the new value. */
  function Put(p: Props, k: string, v: string): (r: Props)
    ensures r.table == p.table[k := v]
    ensures k in p.table ==> r.keys == p.keys
    ensures k !in p.table ==> r.keys == p.keys + [k]
    ensures Wf(p) ==> Wf(r)
  {
    Props(if k in p.table then p.keys else p.keys + [k], p.table[k := v])
  }

  /** `ks` without `k`, the others in their order. */
  function Without(ks: seq<string>, k: string): (r: seq<string>)
    ensures forall x :: x in r <==> x in ks && x != k
    ensures k !in ks ==> r == ks
  {
    if ks == [] then []
    else
      var rest := Without(ks[1..], k);
      if ks[0] == k then rest else [ks[0]] + rest
  }

  /** Taking a key out of distinct keys leaves them distinct. */
  lemma {:induction false} WithoutDistinct(ks: seq<string>, k: string)
    requires Distinct(ks)
    ensures Distinct(Without(ks, k))
    decreases |ks|
  {
    if ks != [] {
      DistinctCons(ks);
      WithoutDistinct(ks[1..], k);
      var rest := Without(ks[1..], k);
      if ks[0] != k {
        assert Without(ks, k) == [ks[0]] + rest;
        DistinctCons([ks[0]] + rest);
        assert ([ks[0]] + rest)[1..] == rest;
      }
    }
  }

  /** A sequence is distinct exactly when its tail is and its head is not in the tail. */
  lemma DistinctCons(ks: seq<string>)
    requires ks != []
    ensures Distinct(ks) <==> Distinct(ks[1..]) && ks[0] !in ks[1..]
  {
    if Distinct(ks[1..]) && ks[0] !in ks[1..] {
      forall i, j | 0 <= i < j < |ks|
        ensures ks[i] != ks[j]
      {
        if i == 0 {
          assert ks[j] == ks[1..][j - 1];
        } else {
          assert ks[i] == ks[1..][i - 1] && ks[j] == ks[1..][j - 1];
        }
      }
    }
    if Distinct(ks) {
      forall i, j | 0 <= i < j < |ks| - 1
        ensures ks[1..][i] != ks[1..][j]
      {
        assert ks[1..][i] == ks[i + 1] && ks[1..][j] == ks[j + 1];
      }
    }
  }

  /** `remove(k)`. */
  function Remove(p: Props, k: string): (r: Props)
    ensures r.table == p.table - {k}
    ensures Wf(p) ==> Wf(r) && k !in r.keys
    ensures Wf(p) && k !in p.table ==> r == p
    ensures Wf(p) ==> forall x :: x in r.table ==> r.table[x] == p.table[x]
  {
    var keys := Without(p.keys, k);
    if Distinct(p.keys) then WithoutDistinct(p.keys, k); Props(keys, p.table - {k})
    else Props(keys, p.table - {k})
  }

  /** Removing the one occurrence of `k` keeps the other keys in their order. */
  lemma {:induction false} WithoutKeepsOrder(a: seq<string>, b: seq<string>, k: string)
    requires k !in a && k !in b
    ensures Without(a + [k] + b, k) == a + b
    decreases |a|
  {
    var l := a + [k] + b;
    if a == [] {
      assert l[0] == k && l[1..] == b;
      assert Without(l, k) == Without(b, k);
    } else {
      assert l[0] == a[0] && a[0] != k;
      assert l[1..] == a[1..] + [k] + b;
      WithoutKeepsOrder(a[1..], b, k);
      assert Without(l, k) == [a[0]] + (a[1..] + b);
      assert a == [a[0]] + a[1..];
      assert ([a[0]] + a[1..]) + b == [a[0]] + (a[1..] + b);
    }
  }

  /** `remove(k)` keeps the other keys in their insertion order. */
  lemma RemoveKeepsOrder(p: Props, k: string, i: int)
    requires Wf(p) && 0 <= i < |p.keys| && p.keys[i] == k
    ensures Remove(p, k).keys == p.keys[..i] + p.keys[i + 1..]
  {
    var a, b := p.keys[..i], p.keys[i + 1..];
    assert p.keys == a + [k] + b;
    assert k !in a by {
      forall j | 0 <= j < |a|
        ensures a[j] != k
      {
        assert a[j] == p.keys[j];
      }
    }
    assert k !in b by {
      forall j | 0 <= j < |b|
        ensures b[j] != k
      {
        assert b[j] == p.keys[i + 1 + j];
      }
    }
    WithoutKeepsOrder(a, b, k);
  }

  /** `get(k)`: None stands for null. */
  function Get(p: Props, k: string): (r: Option<string>)
    ensures r.Some? <==> k in p.table
    ensures r.Some? ==> r.value == p.table[k]
  {
    if k in p.table then Some(p.table[k]) else None
  }

  /** A key written after another is found again with the new value in the old place. */
  lemma PutThenGet(p: Props, k: string, v: string, other: string)
    ensures Get(Put(p, k, v), k) == Some(v)
    ensures other != k ==> Get(Put(p, k, v), other) == Get(p, other)
  {
  }

  lemma {:induction false} DistinctCard(ks: seq<string>)
    requires Distinct(ks)
    ensures |set x | x in ks| == |ks|
  {
    if ks != [] {
      DistinctCard(ks[1..]);
      assert (set x | x in ks) == {ks[0]} + (set x | x in ks[1..]);
      assert ks[0] !in (set x | x in ks[1..]);
    }
  }

  /** `size()` counts distinct keys: as many as the insertion order lists. */
  lemma SizeIsKeyCount(p: Props)
    requires Wf(p)
    ensures |p.table| == |p.keys|
  {
    DistinctCard(p.keys);
    assert p.table.Keys == set x | x in p.keys;
  }

  // ------------------------------------------------ Java's String.split("=")

  /** The pieces between the `=` signs, empty ones included (`split("=", -1)`). */
  function SplitAll(s: string): (r: seq<string>)
    ensures |r| >= 1
    ensures forall i :: 0 <= i < |r| ==> '=' !in r[i]
    decreases |s|
  {
    if s == [] then [""]
    else
      var t := SplitAll(s[1..]);
      if s[0] == '=' then [""] + t
      else [[s[0]] + t[0]] + t[1..]
  }

  /** Joining the pieces with `=` gives back the line. */
  lemma {:induction false} SplitThenJoin(s: string)
    ensures Join(SplitAll(s)) == s
    decreases |s|
  {
    if s != [] {
      SplitThenJoin(s[1..]);
      var t := SplitAll(s[1..]);
      if s[0] != '=' {
        if |t| > 1 {
          assert ([[s[0]] + t[0]] + t[1..])[1..] == t[1..];
        }
      } else {
        assert ([""] + t)[1..] == t;
      }
    }
  }

  /** The pieces glued back with `=` in between. */
  function Join(ps: seq<string>): string
    decreases |ps|
  {
    if |ps| == 0 then ""
    else if |ps| == 1 then ps[0]
    else ps[0] + "=" + Join(ps[1..])
  }

  /** The values of `ks`, in that order. */
  function ValuesOf(t: map<string, string>, ks: seq<string>): (vs: seq<string>)
    requires forall k :: k in ks ==> k in t
    ensures |vs| == |ks|
    ensures forall i :: 0 <= i < |ks| ==> vs[i] == t[ks[i]]
  {
    if ks == [] then [] else [t[ks[0]]] + ValuesOf(t, ks[1..])
  }

  /** Appending a piece adds it after one more `=`. */
  lemma {:induction false} JoinSnoc(ps: seq<string>, x: string)
    ensures Join(ps + [x]) == if ps == [] then x else Join(ps) + "=" + x
    decreases |ps|
  {
    if |ps| > 1 {
      JoinSnoc(ps[1..], x);
      assert (ps + [x])[1..] == ps[1..] + [x];
    } else if |ps| == 1 {
      assert (ps + [x])[1..] == [x];
    }
  }

  /** What `split` does after splitting: trailing empty strings are removed. */
  function DropTrailingEmpty(ps: seq<string>): (r: seq<string>)
    ensures |r| <= |ps| && r == ps[..|r|]
    ensures r == [] || r[|r| - 1] != ""
    ensures forall i :: |r| <= i < |ps| ==> ps[i] == ""
    decreases |ps|
  {
    if ps == [] then []
    else if ps[|ps| - 1] == "" then DropTrailingEmpty(ps[..|ps| - 1])
    else ps
  }

  /**
   * `s.split("=")`: a string without `=` is its own single piece (even the
   * empty string); otherwise the pieces, with trailing empty ones dropped.
   */
  function JavaSplit(s: string): (r: seq<string>)
    ensures '=' !in s ==> r == [s]
    ensures '=' in s ==> r == DropTrailingEmpty(SplitAll(s))
  {
    if '=' !in s then [s] else DropTrailingEmpty(SplitAll(s))
  }

  // --------------------------------------------------------- parsing a line

  datatype LineParse = Skip | Entry(key: string, value: string)

  /**
   * One line of `load`: comments are skipped, and so is a line whose
   * split is empty; otherwise the key is the first piece and the value the
   * remaining pieces joined by `=`.
   */
  function ParseLine(line: string): (r: LineParse)
    ensures r == Skip <==> (|line| > 0 && line[0] == '#') || (line != "" && OnlyEquals(line))
    ensures '=' !in line && !(|line| > 0 && line[0] == '#') ==> r == Entry(line, "")
    // with an `=`: the line is key, `=`, value and then nothing but the `=`
    // signs that split dropped
    ensures r.Entry? && '=' in line ==>
              |r.key| + 1 + |r.value| <= |line|
              && line[..|r.key| + 1 + |r.value|] == r.key + "=" + r.value
              && OnlyEquals(line[|r.key| + 1 + |r.value|..])
    ensures r.Entry? ==> '=' !in r.key && (r.value == "" || r.value[|r.value| - 1] != '=')
  {
    if |line| > 0 && line[0] == '#' then Skip
    // without an `=`, split gives the whole line as its only piece
    else if '=' !in line then Entry(line, "")
    else
      SplitShape(line);
      var kv := JavaSplit(line);
      if |kv| < 1 then Skip
      else Entry(kv[0], Join(kv[1..]))
  }

  predicate OnlyEquals(t: string)
  {
    forall i :: 0 <= i < |t| ==> t[i] == '='
  }

  /** `m` equals signs. */
  function EqualsSigns(m: nat): (t: string)
    ensures |t| == m && OnlyEquals(t)
  {
    seq(m, _ => '=')
  }

  /**
   * What `split("=")` leaves of a line with an `=`: nothing exactly when
   * the line is only `=` signs; otherwise a key, `=`, the remaining pieces
   * joined by `=` and the dropped trailing `=` signs, where that value does
   * not end with `=`.
   */
  lemma SplitShape(line: string)
    requires '=' in line
    ensures DropTrailingEmpty(SplitAll(line)) == [] <==> OnlyEquals(line)
    ensures var kv := DropTrailingEmpty(SplitAll(line));
            kv != [] ==>
              var key, value := kv[0], Join(kv[1..]);
              |key| + 1 + |value| <= |line|
              && line[..|key| + 1 + |value|] == key + "=" + value
              && OnlyEquals(line[|key| + 1 + |value|..])
              && (value == "" || value[|value| - 1] != '=')
  {
    SplitEmptyIff(line);
    var ps := SplitAll(line);
    var kv := DropTrailingEmpty(ps);
    if kv != [] {
      SplitHasTwo(line);
      SplitThenJoin(line);
      assert kv == ps[..|kv|];
      KeyValueShape(ps, |kv|);
    }
  }

  /** Split leaves nothing of a line with an `=` exactly when it is only `=` signs. */
  lemma SplitEmptyIff(line: string)
    requires '=' in line
    ensures DropTrailingEmpty(SplitAll(line)) == [] <==> OnlyEquals(line)
  {
    var ps := SplitAll(line);
    var kv := DropTrailingEmpty(ps);
    SplitThenJoin(line);
    if kv == [] {
      AllDropped(ps);
    } else if OnlyEquals(line) {
      OnlySeparators(line);
    }
  }

  /** A line with an `=` splits into at least two pieces. */
  lemma SplitHasTwo(line: string)
    requires '=' in line
    ensures |SplitAll(line)| >= 2
  {
    SplitThenJoin(line);
  }

  /** Pieces that are all empty join to `=` signs only. */
  lemma AllDropped(ps: seq<string>)
    requires |ps| >= 1 && forall i :: 0 <= i < |ps| ==> ps[i] == ""
    ensures OnlyEquals(Join(ps))
  {
    JoinTrailingEmpty(ps, 1);
    assert ps[..1] == [""];
  }

  /**
   * Pieces whose first `n` are kept, the last of them non-empty, join to a
   * key, `=`, a value not ending with `=`, and then only `=` signs.
   */
  lemma KeyValueShape(ps: seq<string>, n: nat)
    requires 1 <= n <= |ps| && |ps| >= 2
    requires forall i :: n <= i < |ps| ==> ps[i] == ""
    requires ps[n - 1] != ""
    requires forall i :: 0 <= i < |ps| ==> '=' !in ps[i]
    ensures var key, value, line := ps[0], Join(ps[..n][1..]), Join(ps);
            |key| + 1 + |value| <= |line|
            && line[..|key| + 1 + |value|] == key + "=" + value
            && OnlyEquals(line[|key| + 1 + |value|..])
            && (value == "" || value[|value| - 1] != '=')
  {
    var kv := ps[..n];
    JoinTrailingEmpty(ps, n);
    var key, value := kv[0], Join(kv[1..]);
    var m := |ps| - n;
    if n == 1 {
      assert EqualsSigns(m) == "=" + EqualsSigns(m - 1);
      assert Join(ps) == key + "=" + value + EqualsSigns(m - 1);
    } else {
      assert Join(kv) == key + "=" + value;
      JoinEndsWithLast(kv[1..]);
      assert Join(ps) == key + "=" + value + EqualsSigns(m);
    }
  }

  lemma {:induction false} OnlySeparators(s: string)
    requires OnlyEquals(s)
    ensures forall i :: 0 <= i < |SplitAll(s)| ==> SplitAll(s)[i] == ""
    decreases |s|
  {
    if s != [] {
      OnlySeparators(s[1..]);
    }
  }

  /** Empty pieces at the end of the join become bare `=` signs. */
  lemma {:induction false} JoinTrailingEmpty(ps: seq<string>, n: nat)
    requires 1 <= n <= |ps| && forall i :: n <= i < |ps| ==> ps[i] == ""
    ensures Join(ps) == Join(ps[..n]) + EqualsSigns(|ps| - n)
    decreases |ps|
  {
    if |ps| > n {
      var q := ps[..|ps| - 1];
      JoinTrailingEmpty(q, n);
      JoinSnoc(q, "");
      assert ps == q + [""];
      assert q[..n] == ps[..n];
      assert EqualsSigns(|ps| - n) == EqualsSigns(|q| - n) + "=";
    } else {
      assert ps[..n] == ps;
      assert EqualsSigns(0) == "";
    }
  }

  /** A join ends with the last character of its last piece, when that piece is not empty. */
  lemma JoinEndsWithLast(ps: seq<string>)
    requires ps != [] && ps[|ps| - 1] != ""
    ensures var last := ps[|ps| - 1];
            Join(ps) != "" && Join(ps)[|Join(ps)| - 1] == last[|last| - 1]
  {
    var q := ps[..|ps| - 1];
    JoinSnoc(q, ps[|ps| - 1]);
    assert ps == q + [ps[|ps| - 1]];
  }

  // --------------------------------------------------------- storable entries

  predicate IsBreak(c: char)
  {
    c == '\n' || c == '\r'
  }

  predicate NoBreak(s: string)
  {
    forall i :: 0 <= i < |s| ==> !IsBreak(s[i])
  }

  /** A key `store` can write and `load` read back. */
  predicate StorableKey(k: string)
  {
    '=' !in k && NoBreak(k) && (k == "" || k[0] != '#')
  }

  /** A value `store` can write and `load` read back. */
  predicate StorableValue(v: string)
  {
    NoBreak(v) && (v == "" || v[|v| - 1] != '=')
  }

  ghost predicate Storable(p: Props)
    requires Wf(p)
  {
    forall k :: k in p.table ==>
      StorableKey(k) && StorableValue(p.table[k]) && !(k == "" && p.table[k] == "")
  }

  lemma {:induction false} SplitAfterKey(k: string, v: string)
    requires '=' !in k
    ensures SplitAll(k + "=" + v) == [k] + SplitAll(v)
    decreases |k|
  {
    var line := k + "=" + v;
    if k == [] {
      assert line == ['='] + v && line[1..] == v;
      assert SplitAll(line) == [""] + SplitAll(line[1..]);
    } else {
      SplitAfterKey(k[1..], v);
      assert line[0] == k[0] && k[0] != '=';
      assert line[1..] == k[1..] + "=" + v;
      var t := SplitAll(line[1..]);
      assert t == [k[1..]] + SplitAll(v);
      assert SplitAll(line) == [[k[0]] + t[0]] + t[1..];
      assert [k[0]] + k[1..] == k;
    }
  }

  lemma {:induction false} LastPieceNonEmpty(v: string)
    requires v != "" && v[|v| - 1] != '='
    ensures var ps := SplitAll(v); ps[|ps| - 1] != ""
    decreases |v|
  {
    if |v| > 1 {
      LastPieceNonEmpty(v[1..]);
    }
  }

  /** A line written by `store` parses back to the entry it was written from. */
  lemma StoredLineParses(k: string, v: string)
    requires StorableKey(k) && StorableValue(v) && !(k == "" && v == "")
    ensures ParseLine(k + "=" + v) == Entry(k, v)
  {
    var line := k + "=" + v;
    SplitAfterKey(k, v);
    assert line[|k|] == '=';
    assert line[0] == if k == "" then '=' else k[0];
    var ps := [k] + SplitAll(v);
    if v == "" {
      assert ps == [k, ""];
      assert ps[..1] == [k];
      assert DropTrailingEmpty(ps) == DropTrailingEmpty([k]);
      ParseSplitLine(line, [k]);
      assert [k][1..] == [];
    } else {
      LastPieceNonEmpty(v);
      assert JavaSplit(line) == ps;
      ParseSplitLine(line, ps);
      assert ps[1..] == SplitAll(v);
      SplitThenJoin(v);
    }
  }

  /** A non-comment line with an `=` and a non-empty split becomes its first piece and the rest. */
  lemma ParseSplitLine(line: string, kv: seq<string>)
    requires '=' in line && line[0] != '#'
    requires JavaSplit(line) == kv && |kv| >= 1
    ensures ParseLine(line) == Entry(kv[0], Join(kv[1..]))
  {
  }

  // ------------------------------------------------------------- lines

  /** Text cut into lines the way `BufferedReader.readLine` does: at `\n`, `\r` or `\r\n`. */
  function ReadLines(text: string): (r: seq<string>)
    ensures r == [] <==> text == []
    ensures forall i :: 0 <= i < |r| ==> NoBreak(r[i])
    ensures text != [] && NoBreak(text) ==> r == [text]
    decreases |text|
  {
    if text == [] then []
    else
      var n := LineEnd(text);
      if n == |text| then [text]
      else if text[n] == '\r' && n + 1 < |text| && text[n + 1] == '\n' then [text[..n]] + ReadLines(text[n + 2..])
      else [text[..n]] + ReadLines(text[n + 1..])
  }

  /** The position of the first line break, or the length when there is none. */
  function LineEnd(text: string): (n: nat)
    ensures n <= |text|
    ensures forall i :: 0 <= i < n ==> !IsBreak(text[i])
    ensures n < |text| ==> IsBreak(text[n])
    decreases |text|
  {
    if text == [] || IsBreak(text[0]) then 0 else 1 + LineEnd(text[1..])
  }

  /** Lines each followed by the separator `newLine()` writes. */
  function Render(lines: seq<string>, sep: string): string
    decreases |lines|
  {
    if lines == [] then "" else lines[0] + sep + Render(lines[1..], sep)
  }

  predicate IsSeparator(sep: string)
  {
    sep == "\n" || sep == "\r\n"
  }

  lemma {:induction false} RenderSnoc(lines: seq<string>, line: string, sep: string)
    ensures Render(lines + [line], sep) == Render(lines, sep) + line + sep
    decreases |lines|
  {
    if lines != [] {
      RenderSnoc(lines[1..], line, sep);
      assert (lines + [line])[1..] == lines[1..] + [line];
    }
  }

  lemma ReadLineThenRest(line: string, sep: string, rest: string)
    requires NoBreak(line) && IsSeparator(sep)
    ensures ReadLines(line + sep + rest) == [line] + ReadLines(rest)
  {
    var text := line + sep + rest;
    LineEndAt(line, sep + rest);
    assert text == line + (sep + rest);
    assert text[..|line|] == line;
    if sep == "\r\n" {
      assert text[|line| + 2..] == rest;
    } else {
      assert text[|line| + 1..] == rest;
    }
  }

  lemma {:induction false} LineEndAt(line: string, rest: string)
    requires NoBreak(line) && rest != [] && IsBreak(rest[0])
    ensures LineEnd(line + rest) == |line|
    decreases |line|
  {
    if line != [] {
      LineEndAt(line[1..], rest);
      assert (line + rest)[1..] == line[1..] + rest;
    }
  }

  /** Reading back rendered lines gives the same lines, if none holds a line break. */
  lemma {:induction false} ReadRendered(lines: seq<string>, sep: string)
    requires IsSeparator(sep)
    requires forall i :: 0 <= i < |lines| ==> NoBreak(lines[i])
    ensures ReadLines(Render(lines, sep)) == lines
    decreases |lines|
  {
    if lines != [] {
      ReadLineThenRest(lines[0], sep, Render(lines[1..], sep));
      ReadRendered(lines[1..], sep);
    }
  }

  // ------------------------------------------------------------------ load

  /** The lines `load` reads: everything before the first empty line. */
  function UntilBlank(lines: seq<string>): (r: seq<string>)
    ensures r <= lines
    ensures forall i :: 0 <= i < |r| ==> r[i] != ""
    decreases |lines|
  {
    if lines == [] || lines[0] == "" then [] else [lines[0]] + UntilBlank(lines[1..])
  }

  /** No line after the first empty one is ever read. */
  lemma {:induction false} UntilBlankStops(lines: seq<string>, n: nat)
    requires n <= |lines|
    requires forall i :: 0 <= i < n ==> lines[i] != ""
    requires n == |lines| || lines[n] == ""
    ensures UntilBlank(lines) == lines[..n]
    decreases n
  {
    if n > 0 {
      UntilBlankStops(lines[1..], n - 1);
      assert lines[..n] == [lines[0]] + lines[1..][..n - 1];
    }
  }

  function ApplyLine(p: Props, line: string): (r: Props)
    ensures ParseLine(line) == Skip ==> r == p
    ensures ParseLine(line).Entry? ==> r.table == p.table[ParseLine(line).key := ParseLine(line).value]
    // a key already there keeps its place, a new one goes last
    ensures p.keys <= r.keys && |r.keys| <= |p.keys| + 1
    ensures Wf(p) ==> Wf(r)
  {
    match ParseLine(line)
    case Skip => p
    case Entry(k, v) => Put(p, k, v)
  }

  /** The effect of the body of `load`'s loop on every line of `lines`, first to last. */
  function ApplyLines(p: Props, lines: seq<string>): (r: Props)
    ensures Wf(p) ==> Wf(r)
    ensures p.keys <= r.keys && p.table.Keys <= r.table.Keys
    decreases |lines|
  {
    if lines == [] then p else ApplyLine(ApplyLines(p, lines[..|lines| - 1]), lines[|lines| - 1])
  }

  /** `load(reader)` of `text` into `p`. */
  function LoadText(p: Props, text: string): (r: Props)
    ensures Wf(p) ==> Wf(r)
    ensures p.keys <= r.keys && p.table.Keys <= r.table.Keys
    ensures text == "" ==> r == p
  {
    ApplyLines(p, UntilBlank(ReadLines(text)))
  }

  /** One line of `load` as its loop body does it: split, then put the first piece and the joined rest. */
  lemma ApplyLineBySplit(p: Props, line: string)
    ensures ApplyLine(p, line) ==
              if |line| > 0 && line[0] == '#' then p
              else
                var kv := JavaSplit(line);
                if |kv| < 1 then p else Put(p, kv[0], Join(kv[1..]))
  {
    if !(|line| > 0 && line[0] == '#') && '=' !in line {
      assert JavaSplit(line)[1..] == [];
    }
  }

  /** `ApplyLines` of one more line applies that line last. */
  lemma ApplyLinesSnoc(p: Props, lines: seq<string>, i: nat)
    requires i < |lines|
    ensures ApplyLines(p, lines[..i + 1]) == ApplyLine(ApplyLines(p, lines[..i]), lines[i])
  {
    assert lines[..i + 1][..i] == lines[..i];
  }

  /** A comment line never changes the table. */
  lemma CommentIgnored(p: Props, line: string)
    requires |line| > 0 && line[0] == '#'
    ensures ApplyLine(p, line) == p
  {
  }

  // ------------------------------------------------------------------ store

  lemma WfKeyInTable(p: Props, i: int)
    requires Wf(p) && 0 <= i < |p.keys|
    ensures p.keys[i] in p.table
  {
  }

  /** The line `store` writes for one entry. */
  function EntryLine(p: Props, i: int): string
    requires Wf(p) && 0 <= i < |p.keys|
  {
    WfKeyInTable(p, i);
    p.keys[i] + "=" + p.table[p.keys[i]]
  }

  /** The lines of `store`: a `#` header, then `key=value` for each entry in key order. */
  function StoreLines(p: Props, date: string): (r: seq<string>)
    requires Wf(p)
    ensures |r| == |p.keys| + 1 && r[0] == "#" + date
    ensures forall i :: 0 <= i < |p.keys| ==> r[i + 1] == EntryLine(p, i)
  {
    ["#" + date] + seq(|p.keys|, i requires 0 <= i < |p.keys| => EntryLine(p, i))
  }

  /** `store(writer, comments)`; `date` is the text of `new Date()`, `sep` the line separator. */
  function StoreText(p: Props, date: string, sep: string): (r: string)
    requires Wf(p)
    ensures |"#" + date + sep| <= |r| && r[..|"#" + date + sep|] == "#" + date + sep
    ensures |sep| <= |r| && r[|r| - |sep|..] == sep
  {
    var lines := StoreLines(p, date);
    RenderSnoc(lines[..|lines| - 1], lines[|lines| - 1], sep);
    assert lines == lines[..|lines| - 1] + [lines[|lines| - 1]];
    Render(lines, sep)
  }

  /** The first `n` entries of `p`. */
  function Prefix(p: Props, n: nat): Props
    requires Wf(p) && n <= |p.keys|
  {
    Props(p.keys[..n], map k | k in p.keys[..n] :: p.table[k])
  }

  lemma StorableAt(p: Props, i: int)
    requires Wf(p) && Storable(p) && 0 <= i < |p.keys|
    ensures var k := p.keys[i];
            k in p.table && StorableKey(k) && StorableValue(p.table[k]) && !(k == "" && p.table[k] == "")
  {
  }

  /** Putting the next entry of `p` extends the prefix by one. */
  lemma PutNextEntry(p: Props, n: nat)
    requires Wf(p) && n < |p.keys|
    ensures Put(Prefix(p, n), p.keys[n], p.table[p.keys[n]]) == Prefix(p, n + 1)
  {
    var q := Prefix(p, n);
    var k := p.keys[n];
    assert k !in q.keys;
    assert p.keys[..n + 1] == q.keys + [k];
    assert Put(q, k, p.table[k]).table == Prefix(p, n + 1).table;
  }

  lemma {:induction false} ApplyStoredLines(p: Props, date: string, n: nat)
    requires Wf(p) && Storable(p) && n <= |p.keys|
    ensures ApplyLines(Empty, StoreLines(p, date)[..n + 1]) == Prefix(p, n)
    decreases n
  {
    var lines := StoreLines(p, date);
    var ls := lines[..n + 1];
    assert ls[..n] == lines[..n];
    assert ls[n] == lines[n];
    assert ApplyLines(Empty, ls) == ApplyLine(ApplyLines(Empty, ls[..n]), ls[n]);
    if n == 0 {
      assert ls[..0] == [];
      CommentIgnored(Empty, lines[0]);
      assert Prefix(p, 0) == Empty;
    } else {
      ApplyStoredLines(p, date, n - 1);
      var k := p.keys[n - 1];
      StorableAt(p, n - 1);
      var v := p.table[k];
      assert lines[n] == k + "=" + v;
      StoredLineParses(k, v);
      assert ApplyLine(Prefix(p, n - 1), lines[n]) == Put(Prefix(p, n - 1), k, v);
      PutNextEntry(p, n - 1);
    }
  }

  lemma NoBreakConcat(a: string, b: string)
    requires NoBreak(a) && NoBreak(b)
    ensures NoBreak(a + b)
  {
    forall i | 0 <= i < |a + b|
      ensures !IsBreak((a + b)[i])
    {
      if i >= |a| {
        assert (a + b)[i] == b[i - |a|];
      }
    }
  }

  /** Every stored line is non-empty and has no line break. */
  lemma StoredLineClean(p: Props, date: string, i: int)
    requires Wf(p) && Storable(p) && NoBreak(date) && 0 <= i <= |p.keys|
    ensures NoBreak(StoreLines(p, date)[i]) && StoreLines(p, date)[i] != ""
  {
    var lines := StoreLines(p, date);
    if i > 0 {
      var k := p.keys[i - 1];
      StorableAt(p, i - 1);
      var v := p.table[k];
      assert lines[i] == k + "=" + v;
      NoBreakConcat(k, "=");
      NoBreakConcat(k + "=", v);
      assert lines[i][|k|] == '=';
    } else {
      NoBreakConcat("#", date);
      assert lines[0][0] == '#';
    }
  }

  /**
   * `store` followed by `load` into an empty object reproduces every entry
   * in the same order, when keys hold no `=` or line break and do not start
   * with `#`, values hold no line break and do not end with `=`, no entry
   * has both an empty key and an empty value, and the date has no line
   * break.
   */
  lemma StoreLoadRoundTrip(p: Props, date: string, sep: string)
    requires Wf(p) && Storable(p) && NoBreak(date) && IsSeparator(sep)
    ensures LoadText(Empty, StoreText(p, date, sep)) == p
  {
    var lines := StoreLines(p, date);
    StoredLinesClean(p, date);
    ReadRendered(lines, sep);
    assert ReadLines(StoreText(p, date, sep)) == lines;
    UntilBlankStops(lines, |lines|);
    assert lines[..|lines|] == lines;
    ApplyStoredLines(p, date, |p.keys|);
    PrefixAll(p);
  }

  lemma StoredLinesClean(p: Props, date: string)
    requires Wf(p) && Storable(p) && NoBreak(date)
    ensures var lines := StoreLines(p, date);
            forall i :: 0 <= i < |lines| ==> NoBreak(lines[i]) && lines[i] != ""
  {
    var lines := StoreLines(p, date);
    forall i | 0 <= i < |lines|
      ensures NoBreak(lines[i]) && lines[i] != ""
    {
      StoredLineClean(p, date, i);
    }
  }

  /** All the entries form the whole table. */
  lemma PrefixAll(p: Props)
    requires Wf(p)
    ensures Prefix(p, |p.keys|) == p
  {
    assert p.keys[..|p.keys|] == p.keys;
    assert Prefix(p, |p.keys|).table == p.table;
  }

  // ------------------------------------------------------------------- list

  const ListHeader := "-- listing properties --"

  /** A value as `list` shows it: more than 40 characters become the first 37 and `...`. */
  function Shown(v: string): (r: string)
    ensures |r| <= 40
    ensures |v| <= 40 ==> r == v
    ensures |v| > 40 ==> |r| == 40 && r[..37] == v[..37] && r[37..] == "..."
  {
    if |v| > 40 then v[..37] + "..." else v
  }

  /** The line `list` prints for key `k`: none for the empty key. */
  function ListLine(p: Props, k: string): (r: seq<string>)
    requires k in p.table
    ensures r == [] <==> k == ""
    // otherwise one line: the key, `=`, and at most 40 more characters, which
    // are the whole value when it fits
    ensures k != "" ==> |r| == 1 && |k| + 1 <= |r[0]| <= |k| + 41 && r[0][..|k| + 1] == k + "="
    ensures k != "" && |p.table[k]| <= 40 ==> r == [k + "=" + p.table[k]]
  {
    if k == "" then [] else [k + "=" + Shown(p.table[k])]
  }

  /** The lines `list` prints for the keys `ks`, at most one per key (`ListEntriesShape`). */
  function ListEntries(p: Props, ks: seq<string>): (r: seq<string>)
    requires forall k <- ks :: k in p.table
    ensures |r| <= |ks|
    decreases |ks|
  {
    if ks == [] then [] else ListEntries(p, ks[..|ks| - 1]) + ListLine(p, ks[|ks| - 1])
  }

  /**
   * `list` prints one line per non-empty key, in key order, holding the
   * key, `=` and the value as `Shown` abbreviates it; entries with an empty
   * key are skipped.
   */
  lemma {:induction false} ListEntriesShape(p: Props, ks: seq<string>)
    requires forall k <- ks :: k in p.table
    ensures var ne := NonEmptyKeys(ks);
            |ListEntries(p, ks)| == |ne|
            && forall i :: 0 <= i < |ne| ==> ListEntries(p, ks)[i] == ne[i] + "=" + Shown(p.table[ne[i]])
    decreases |ks|
  {
    if ks != [] {
      ListEntriesShape(p, ks[..|ks| - 1]);
    }
  }

  /** `ListEntries` of one more key adds that key's line last. */
  lemma ListEntriesSnoc(p: Props, ks: seq<string>, i: nat)
    requires i < |ks| && forall k <- ks :: k in p.table
    ensures ListEntries(p, ks[..i + 1]) == ListEntries(p, ks[..i]) + ListLine(p, ks[i])
  {
    assert ks[..i + 1][..i] == ks[..i];
  }

  /** The non-empty keys of `ks`, in order. */
  function NonEmptyKeys(ks: seq<string>): (r: seq<string>)
    ensures forall k <- r :: k in ks && k != ""
    decreases |ks|
  {
    if ks == [] then []
    else NonEmptyKeys(ks[..|ks| - 1]) + (if ks[|ks| - 1] == "" then [] else [ks[|ks| - 1]])
  }

  /** The whole output of `list`: the header, then the entries of `ListEntries`. */
  function ListLines(p: Props): (r: seq<string>)
    requires Wf(p)
    ensures var ne := NonEmptyKeys(p.keys);
            |r| == 1 + |ne| && r[0] == ListHeader
            && forall i :: 0 <= i < |ne| ==> r[i + 1] == ne[i] + "=" + Shown(p.table[ne[i]])
  {
    ListEntriesShape(p, p.keys);
    [ListHeader] + ListEntries(p, p.keys)
  }
}
