/**
 * The planning step of the migration converter: from the existing
 * `NNNN_name.sql` files, the listing of the migrations directory and the
 * tracker of already converted folders, decide which `TIMESTAMP_name`
 * folders to convert, under which numbered file names, with what SQL, and
 * what the tracker becomes. Reading and writing files is left to the caller.
 */
module ConvertMigrations {
  import opened Common

  // ---------------------------------------------------------------------------
  // Strings and numbers

  predicate IsDigit(c: char) {
    '0' <= c <= '9'
  }

  predicate AllDigits(s: string) {
    forall i :: 0 <= i < |s| ==> IsDigit(s[i])
  }

  predicate StartsWith(s: string, prefix: string) {
    |prefix| <= |s| && s[..|prefix|] == prefix
  }

  predicate EndsWith(s: string, suffix: string) {
    |suffix| <= |s| && s[|s| - |suffix|..] == suffix
  }

  /** The longest prefix of decimal digits. */
  function LeadingDigits(s: string): (r: string)
    ensures AllDigits(r) && r <= s
    ensures |r| < |s| ==> !IsDigit(s[|r|])
  {
    if |s| == 0 || !IsDigit(s[0]) then [] else [s[0]] + LeadingDigits(s[1..])
  }

  /** The value of a string of decimal digits. */
  function DigitsValue(s: string): nat
    requires AllDigits(s)
    decreases |s|
  {
    if |s| == 0 then 0
    else DigitsValue(s[..|s| - 1]) * 10 + (s[|s| - 1] as int - '0' as int)
  }

  function DigitChar(d: nat): (c: char)
    requires d < 10
    ensures IsDigit(c) && c as int - '0' as int == d
  {
    ('0' as int + d) as char
  }

  /** `String(n)`: the decimal representation without leading zeros. */
  function NatToString(n: nat): (s: string)
    ensures |s| >= 1
    ensures n < 10 <==> |s| == 1
    ensures n < 100 <==> |s| <= 2
    ensures n < 1000 <==> |s| <= 3
    ensures n < 10000 <==> |s| <= 4
  {
    if n < 10 then [DigitChar(n)] else NatToString(n / 10) + [DigitChar(n % 10)]
  }

  /** The decimal representation is all digits and reads back as the number. */
  lemma {:induction false} NatToStringValue(n: nat)
    ensures AllDigits(NatToString(n)) && DigitsValue(NatToString(n)) == n
  {
    if n >= 10 {
      NatToStringValue(n / 10);
      var s := NatToString(n);
      assert s[..|s| - 1] == NatToString(n / 10);
    }
  }

  function Zeros(k: nat): (s: string)
    ensures |s| == k && AllDigits(s)
  {
    if k == 0 then [] else "0" + Zeros(k - 1)
  }

  /** Leading zeros do not change the value of a digit string. */
  lemma {:induction false} LeadingZerosValue(k: nat, s: string)
    requires AllDigits(s)
    ensures AllDigits(Zeros(k) + s) && DigitsValue(Zeros(k) + s) == DigitsValue(s)
    decreases |s|
  {
    var z := Zeros(k);
    assert AllDigits(z + s);
    if |s| == 0 {
      assert z + s == z;
      ZerosValue(k);
    } else {
      assert (z + s)[..|z + s| - 1] == z + s[..|s| - 1];
      LeadingZerosValue(k, s[..|s| - 1]);
    }
  }

  lemma {:induction false} ZerosValue(k: nat)
    ensures DigitsValue(Zeros(k)) == 0
  {
    if k > 0 {
      var z := Zeros(k);
      assert z == Zeros(k - 1) + "0" by { ZerosSnoc(k); }
      assert z[..|z| - 1] == Zeros(k - 1);
      ZerosValue(k - 1);
    }
  }

  lemma {:induction false} ZerosSnoc(k: nat)
    requires k > 0
    ensures Zeros(k) == Zeros(k - 1) + "0"
  {
    if k > 1 {
      ZerosSnoc(k - 1);
    }
  }

  /** `String(n).padStart(4, '0')`. Longer numbers are not cut. */
  function Pad4(n: nat): (s: string)
    ensures |s| >= 4
    ensures n < 10000 <==> |s| == 4
  {
    var d := NatToString(n);
    if |d| >= 4 then d else Zeros(4 - |d|) + d
  }

  /** The padded number is all digits and reads back as the number. */
  lemma Pad4Value(n: nat)
    ensures AllDigits(Pad4(n)) && DigitsValue(Pad4(n)) == n
  {
    var d := NatToString(n);
    NatToStringValue(n);
    if |d| < 4 {
      LeadingZerosValue(4 - |d|, d);
    }
  }

  /** `parseInt(f.split('_')[0], 10)` for a name that starts with a digit. */
  function LeadingNumber(f: string): nat {
    DigitsValue(LeadingDigits(f))
  }

  /** A digit string followed by a non-digit is read back whole. */
  lemma {:induction false} LeadingDigitsOfPrefixed(p: string, x: string)
    requires AllDigits(p)
    requires |x| > 0 && !IsDigit(x[0])
    ensures LeadingDigits(p + x) == p
    decreases |p|
  {
    if |p| == 0 {
      assert p + x == x;
    } else {
      assert (p + x)[1..] == p[1..] + x;
      LeadingDigitsOfPrefixed(p[1..], x);
    }
  }

  /** The largest element, `Math.max(...xs)`. */
  function MaxOf(xs: seq<nat>): (m: nat)
    requires |xs| > 0
    ensures m in xs
    ensures forall x :: x in xs ==> x <= m
  {
    if |xs| == 1 then xs[0]
    else
      var m := MaxOf(xs[1..]);
      assert forall x :: x in xs ==> x == xs[0] || x in xs[1..];
      if xs[0] >= m then xs[0] else m
  }

  // ---------------------------------------------------------------------------
  // Numbering

  function SqlFiles(files: seq<string>): (r: seq<string>)
    ensures forall f :: f in r <==> f in files && EndsWith(f, ".sql")
  {
    if |files| == 0 then []
    else (if EndsWith(files[0], ".sql") then [files[0]] else []) + SqlFiles(files[1..])
  }

  /** Every existing `.sql` file starts with its number. */
  predicate WellFormedExisting(files: seq<string>) {
    forall f :: f in files && EndsWith(f, ".sql") ==> |f| > 0 && IsDigit(f[0])
  }

  function Numbers(fs: seq<string>): (r: seq<nat>)
    ensures |r| == |fs|
    ensures forall i :: 0 <= i < |fs| ==> r[i] == LeadingNumber(fs[i])
  {
    seq(|fs|, i requires 0 <= i < |fs| => LeadingNumber(fs[i]))
  }

  /** The largest number among non-empty `fs` is the number of one of them and bounds all. */
  lemma LargestNumber(fs: seq<string>)
    requires |fs| > 0
    ensures forall f :: f in fs ==> LeadingNumber(f) <= MaxOf(Numbers(fs))
    ensures exists f :: f in fs && LeadingNumber(f) == MaxOf(Numbers(fs))
  {
    var nums := Numbers(fs);
    var m := MaxOf(nums);
    forall f | f in fs ensures LeadingNumber(f) <= m {
      var i :| 0 <= i < |fs| && fs[i] == f;
      assert nums[i] in nums;
    }
    var i :| 0 <= i < |nums| && nums[i] == m;
    assert fs[i] in fs;
  }

  /** `getNextNumber`: 1 without existing migrations, else one past the largest number. */
  function NextNumber(existing: seq<string>): (n: nat)
    requires WellFormedExisting(existing)
    ensures n >= 1
    ensures forall f :: f in existing && EndsWith(f, ".sql") ==> LeadingNumber(f) < n
    ensures n == 1 || exists f :: f in existing && EndsWith(f, ".sql") && LeadingNumber(f) == n - 1
    ensures (forall f :: f in existing ==> !EndsWith(f, ".sql")) ==> n == 1
  {
    var sql := SqlFiles(existing);
    if |sql| == 0 then 1
    else
      LargestNumber(sql);
      assert sql[0] in sql;
      MaxOf(Numbers(sql)) + 1
  }

  // ---------------------------------------------------------------------------
  // Candidate folders

  /** A directory entry: its name, and its listing when it is a directory. */
  datatype DirEntry = DirEntry(name: string, listing: Option<seq<string>>, migrationSql: string)

  /** `/^\d{14}_/`: fourteen digits and an underscore. */
  predicate IsTimestamped(name: string) {
    |name| >= 15 && AllDigits(name[..14]) && name[14] == '_'
  }

  /** A folder to consider: timestamped, and a directory holding `migration.sql`. */
  predicate IsCandidate(e: DirEntry) {
    IsTimestamped(e.name) && e.listing.Some? && "migration.sql" in e.listing.value
  }

  function Candidates(es: seq<DirEntry>): (r: seq<DirEntry>)
    ensures forall e :: e in r <==> e in es && IsCandidate(e)
  {
    if |es| == 0 then []
    else (if IsCandidate(es[0]) then [es[0]] else []) + Candidates(es[1..])
  }

  /** String order by character codes, as the default `sort` compares. */
  predicate LexLe(a: string, b: string) {
    if |a| == 0 then true
    else if |b| == 0 then false
    else if a[0] != b[0] then a[0] < b[0]
    else LexLe(a[1..], b[1..])
  }

  lemma {:induction false} LexLeTotal(a: string, b: string)
    ensures LexLe(a, b) || LexLe(b, a)
    decreases |a|
  {
    if |a| > 0 && |b| > 0 && a[0] == b[0] {
      LexLeTotal(a[1..], b[1..]);
    }
  }

  lemma {:induction false} LexLeTransitive(a: string, b: string, c: string)
    requires LexLe(a, b) && LexLe(b, c)
    ensures LexLe(a, c)
    decreases |a|
  {
    if |a| > 0 && |b| > 0 && |c| > 0 && a[0] == b[0] && b[0] == c[0] {
      LexLeTransitive(a[1..], b[1..], c[1..]);
    }
  }

  lemma {:induction false} LexLeAntisymmetric(a: string, b: string)
    requires LexLe(a, b) && LexLe(b, a)
    ensures a == b
    decreases |a|
  {
    if |a| > 0 && |b| > 0 {
      LexLeAntisymmetric(a[1..], b[1..]);
      assert a == [a[0]] + a[1..] && b == [b[0]] + b[1..];
    }
  }

  predicate SortedByName(es: seq<DirEntry>) {
    forall i, j :: 0 <= i < j < |es| ==> LexLe(es[i].name, es[j].name)
  }

  /** Prepending a name no greater than every name keeps the order. */
  lemma PrependSorted(e: DirEntry, es: seq<DirEntry>)
    requires SortedByName(es)
    requires forall j :: 0 <= j < |es| ==> LexLe(e.name, es[j].name)
    ensures SortedByName([e] + es)
  {
    var r := [e] + es;
    forall i, j | 0 <= i < j < |r| ensures LexLe(r[i].name, r[j].name) {
      if i > 0 {
        assert r[i] == es[i - 1] && r[j] == es[j - 1];
      } else {
        assert r[j] == es[j - 1];
      }
    }
  }

  /** The head of a sorted sequence is no greater than any element of it. */
  lemma HeadIsLeast(es: seq<DirEntry>, x: DirEntry)
    requires SortedByName(es) && |es| > 0
    requires x in multiset(es)
    ensures LexLe(es[0].name, x.name)
  {
    var j :| 0 <= j < |es| && es[j] == x;
    if j == 0 {
      LexLeReflexive(x.name);
    }
  }

  lemma {:induction false} LexLeReflexive(a: string)
    ensures LexLe(a, a)
    decreases |a|
  {
    if |a| > 0 {
      LexLeReflexive(a[1..]);
    }
  }

  function Insert(e: DirEntry, es: seq<DirEntry>): (r: seq<DirEntry>)
    requires SortedByName(es)
    ensures multiset(r) == multiset(es) + multiset{e}
    ensures SortedByName(r)
  {
    if |es| == 0 then [e]
    else if LexLe(e.name, es[0].name) then
      assert forall j :: 0 <= j < |es| ==> LexLe(e.name, es[j].name) by {
        forall j | 0 <= j < |es| ensures LexLe(e.name, es[j].name) {
          HeadIsLeast(es, es[j]);
          LexLeTransitive(e.name, es[0].name, es[j].name);
        }
      }
      PrependSorted(e, es);
      [e] + es
    else
      var rest := Insert(e, es[1..]);
      assert es == [es[0]] + es[1..];
      assert forall j :: 0 <= j < |rest| ==> LexLe(es[0].name, rest[j].name) by {
        forall j | 0 <= j < |rest| ensures LexLe(es[0].name, rest[j].name) {
          assert rest[j] in multiset(rest);
          if rest[j] == e {
            LexLeTotal(e.name, es[0].name);
          } else {
            HeadIsLeast(es, rest[j]);
          }
        }
      }
      PrependSorted(es[0], rest);
      [es[0]] + rest
  }

  /** `.sort()` by folder name. */
  function SortByName(es: seq<DirEntry>): (r: seq<DirEntry>)
    ensures multiset(r) == multiset(es)
    ensures SortedByName(r)
  {
    if |es| == 0 then []
    else
      assert es == [es[0]] + es[1..];
      Insert(es[0], SortByName(es[1..]))
  }

  // ---------------------------------------------------------------------------
  // The tracker file

  function IndexOfNewline(s: string): (r: Option<nat>)
    ensures r.Some? ==> r.value < |s| && s[r.value] == '\n' && '\n' !in s[..r.value]
    ensures r.None? ==> '\n' !in s
  {
    if |s| == 0 then None
    else if s[0] == '\n' then Some(0)
    else match IndexOfNewline(s[1..])
      case None => None
      case Some(k) =>
        assert s[..k + 1] == [s[0]] + s[1..][..k];
        Some(k + 1)
  }

  /** `s.split('\n')`. */
  function SplitLines(s: string): (r: seq<string>)
    ensures |r| >= 1
    decreases |s|
  {
    match IndexOfNewline(s)
    case None => [s]
    case Some(i) => [s[..i]] + SplitLines(s[i + 1..])
  }

  /** `xs.join('\n')`. */
  function JoinLines(xs: seq<string>): string {
    if |xs| == 0 then []
    else if |xs| == 1 then xs[0]
    else xs[0] + "\n" + JoinLines(xs[1..])
  }

  lemma {:induction false} IndexOfNewlineAfter(x: string, rest: string)
    requires '\n' !in x
    ensures IndexOfNewline(x + "\n" + rest) == Some(|x|)
    decreases |x|
  {
    if |x| > 0 {
      assert (x + "\n" + rest)[1..] == x[1..] + "\n" + rest;
      assert '\n' !in x[1..] by {
        forall c | c in x[1..] ensures c != '\n' { assert c in x; }
      }
      IndexOfNewlineAfter(x[1..], rest);
    }
  }

  /** Splitting joined newline-free lines gives the lines back. */
  lemma {:induction false} SplitJoin(xs: seq<string>)
    requires |xs| >= 1
    requires forall x :: x in xs ==> '\n' !in x
    ensures SplitLines(JoinLines(xs)) == xs
    decreases |xs|
  {
    if |xs| > 1 {
      var s := JoinLines(xs);
      var x := xs[0];
      assert s == x + "\n" + JoinLines(xs[1..]);
      IndexOfNewlineAfter(x, JoinLines(xs[1..]));
      assert s[..|x|] == x;
      assert s[|x| + 1..] == JoinLines(xs[1..]);
      assert SplitLines(s) == [x] + SplitLines(JoinLines(xs[1..]));
      SplitJoin(xs[1..]);
    } else {
      assert xs[0] in xs;
      assert IndexOfNewline(xs[0]).None?;
    }
  }

  function NonEmpty(xs: seq<string>): (r: seq<string>)
    ensures forall x :: x in r <==> x in xs && x != ""
  {
    if |xs| == 0 then []
    else (if xs[0] != "" then [xs[0]] else []) + NonEmpty(xs[1..])
  }

  /** The entries of a `Set` built from `xs`, in insertion order. */
  function Dedup(xs: seq<string>): (r: seq<string>)
    ensures forall x :: x in r <==> x in xs
    ensures forall i, j :: 0 <= i < j < |r| ==> r[i] != r[j]
    decreases |xs|
  {
    if |xs| == 0 then []
    else
      var init := Dedup(xs[..|xs| - 1]);
      var last := xs[|xs| - 1];
      assert forall x :: x in xs <==> x in xs[..|xs| - 1] || x == last by {
        assert xs == xs[..|xs| - 1] + [last];
      }
      if last in init then init else init + [last]
  }

  /** The converted folders the tracker records (no tracker file: none). */
  function TrackedFolders(tracker: Option<string>): (r: seq<string>)
    ensures forall i, j :: 0 <= i < j < |r| ==> r[i] != r[j]
    ensures forall x :: x in r ==> x != ""
    ensures tracker.None? ==> r == []
    ensures tracker.Some? ==> forall x :: x in r <==> x in SplitLines(tracker.value) && x != ""
  {
    match tracker
    case None => []
    case Some(content) => Dedup(NonEmpty(SplitLines(content)))
  }

  // ---------------------------------------------------------------------------
  // Names and contents

  /** `folder.replace(/^\d{14}_/, '').replace(/_/g, '-')`. */
  function MigrationName(folder: string): (r: string)
    ensures '_' !in r
    ensures IsTimestamped(folder) ==> |r| == |folder| - 15
    ensures IsTimestamped(folder) ==>
              forall i :: 0 <= i < |r| ==> r[i] == folder[15 + i] || (r[i] == '-' && folder[15 + i] == '_')
    ensures !IsTimestamped(folder) ==>
              |r| == |folder| && forall i :: 0 <= i < |r| ==> r[i] == folder[i] || (r[i] == '-' && folder[i] == '_')
  {
    var rest := if IsTimestamped(folder) then folder[15..] else folder;
    seq(|rest|, i requires 0 <= i < |rest| => if rest[i] == '_' then '-' else rest[i])
  }

  /** `NNNN_name.sql`. */
  function WranglerName(n: nat, folder: string): string {
    Pad4(n) + "_" + MigrationName(folder) + ".sql"
  }

  /** A generated file name reads back as its number, so the next run numbers after it. */
  lemma WranglerNameNumber(n: nat, folder: string)
    ensures EndsWith(WranglerName(n, folder), ".sql")
    ensures IsDigit(WranglerName(n, folder)[0])
    ensures LeadingNumber(WranglerName(n, folder)) == n
  {
    var p := Pad4(n);
    var x := "_" + MigrationName(folder) + ".sql";
    assert WranglerName(n, folder) == p + x;
    Pad4Value(n);
    LeadingDigitsOfPrefixed(p, x);
  }

  const Marker: string := "--> statement-breakpoint"

  /** `sql.replace(/--> statement-breakpoint\n?/g, '\n')`. */
  function StripMarkers(s: string): (r: string)
    ensures |r| <= |s|
    decreases |s|
  {
    if |s| == 0 then []
    else if StartsWith(s, Marker) then
      var after := s[|Marker|..];
      "\n" + StripMarkers(if |after| > 0 && after[0] == '\n' then after[1..] else after)
    else [s[0]] + StripMarkers(s[1..])
  }

  predicate ContainsMarker(s: string)
    decreases |s|
  {
    |s| > 0 && (StartsWith(s, Marker) || ContainsMarker(s[1..]))
  }

  /** A newline-free prefix of the output was already a prefix of the input. */
  lemma {:induction false} StripMarkersPrefix(s: string, p: string)
    requires '\n' !in p
    requires StartsWith(StripMarkers(s), p)
    ensures StartsWith(s, p)
    decreases |s|
  {
    if |p| > 0 && |s| > 0 {
      var r := StripMarkers(s);
      assert r[0] == p[0] && p[0] in p;
      assert !StartsWith(s, Marker);
      var t := StripMarkers(s[1..]);
      assert r == [s[0]] + t;
      assert p[1..] == r[1..|p|];
      assert '\n' !in p[1..] by {
        forall c | c in p[1..] ensures c != '\n' { assert c in p; }
      }
      StripMarkersPrefix(s[1..], p[1..]);
      assert s[..|p|] == [s[0]] + s[1..][..|p| - 1];
    }
  }

  lemma ContainsMarkerAfterNewline(t: string)
    requires !ContainsMarker(t)
    ensures !ContainsMarker("\n" + t)
  {
    assert ("\n" + t)[1..] == t;
    assert ("\n" + t)[0] != Marker[0];
  }

  /**
   * The marker overlaps no shifted copy of itself: no two adjacent dashes
   * occur after its first character, and it does not end in a dash.
   */
  lemma MarkerHasNoBorder()
    ensures forall j :: 0 < j < |Marker| - 1 ==> Marker[j] != '-' || Marker[j + 1] != '-'
    ensures Marker[|Marker| - 1] != '-'
    ensures Marker[0] == '-' && Marker[1] == '-'
  {
  }

  /** A marker after marker-free text cannot start before that text ends. */
  lemma NoMarkerAcrossBoundary(a: string, b: string)
    requires |a| > 0 && !ContainsMarker(a)
    ensures !StartsWith(a + Marker + b, Marker)
  {
    var s := a + Marker + b;
    if |a| >= |Marker| {
      assert s[..|Marker|] == a[..|Marker|];
    } else {
      var j := |a|;
      MarkerHasNoBorder();
      assert s[j] == Marker[0] == '-';
      if j + 1 < |Marker| {
        assert s[j + 1] == Marker[1] == '-';
        if Marker[j] != '-' {
          assert s[..|Marker|][j] != Marker[j];
        } else {
          assert s[..|Marker|][j + 1] != Marker[j + 1];
        }
      } else {
        assert s[..|Marker|][j] != Marker[j];
      }
    }
  }

  /**
   * Each marker, together with one newline right after it, becomes a
   * single newline; the text before the first marker is kept as it is.
   */
  lemma {:induction false} StripMarkersReplacesMarker(a: string, b: string)
    requires !ContainsMarker(a)
    ensures StripMarkers(a + Marker + b)
            == a + "\n" + StripMarkers(if |b| > 0 && b[0] == '\n' then b[1..] else b)
    decreases |a|
  {
    var s := a + Marker + b;
    if |a| == 0 {
      assert s == Marker + b;
      assert s[..|Marker|] == Marker;
      assert s[|Marker|..] == b;
    } else {
      NoMarkerAcrossBoundary(a, b);
      assert s[1..] == a[1..] + Marker + b;
      assert !ContainsMarker(a[1..]);
      StripMarkersReplacesMarker(a[1..], b);
      assert a == [a[0]] + a[1..];
    }
  }

  /** No statement-breakpoint marker survives. */
  lemma {:induction false} StripMarkersRemovesAll(s: string)
    ensures !ContainsMarker(StripMarkers(s))
    decreases |s|
  {
    if |s| > 0 {
      if StartsWith(s, Marker) {
        var after := s[|Marker|..];
        var next := if |after| > 0 && after[0] == '\n' then after[1..] else after;
        StripMarkersRemovesAll(next);
        ContainsMarkerAfterNewline(StripMarkers(next));
      } else {
        var t := StripMarkers(s[1..]);
        StripMarkersRemovesAll(s[1..]);
        var r := [s[0]] + t;
        assert r[1..] == t;
        if StartsWith(r, Marker) {
          assert t[..|Marker| - 1] == Marker[1..];
          assert StartsWith(t, Marker[1..]);
          StripMarkersPrefix(s[1..], Marker[1..]);
        }
      }
    }
  }

  /** SQL without markers is copied unchanged. */
  lemma {:induction false} StripMarkersKeepsClean(s: string)
    requires !ContainsMarker(s)
    ensures StripMarkers(s) == s
    decreases |s|
  {
    if |s| > 0 {
      StripMarkersKeepsClean(s[1..]);
      assert s == [s[0]] + s[1..];
    }
  }

  // ---------------------------------------------------------------------------
  // The plan

  /** The folders not yet tracked, in the given order (the loop's `continue`). */
  function Untracked(folders: seq<DirEntry>, tracked: seq<string>): (r: seq<DirEntry>)
    ensures forall e :: e in r <==> e in folders && e.name !in tracked
  {
    if |folders| == 0 then []
    else (if folders[0].name in tracked then [] else [folders[0]]) + Untracked(folders[1..], tracked)
  }

  /** Skipping tracked folders keeps the name order. */
  lemma {:induction false} UntrackedSorted(folders: seq<DirEntry>, tracked: seq<string>)
    requires SortedByName(folders)
    ensures SortedByName(Untracked(folders, tracked))
  {
    if |folders| > 0 {
      var rest := Untracked(folders[1..], tracked);
      UntrackedSorted(folders[1..], tracked);
      if folders[0].name !in tracked {
        forall j | 0 <= j < |rest| ensures LexLe(folders[0].name, rest[j].name) {
          assert rest[j] in folders[1..];
          var i :| 0 <= i < |folders[1..]| && folders[1..][i] == rest[j];
          assert folders[i + 1] == rest[j];
        }
        PrependSorted(folders[0], rest);
        assert Untracked(folders, tracked) == [folders[0]] + rest;
      } else {
        assert Untracked(folders, tracked) == rest;
      }
    }
  }

  /** The folders one run converts: untracked candidates in name order. */
  function ToConvert(entries: seq<DirEntry>, tracker: Option<string>): (r: seq<DirEntry>)
    ensures forall e :: e in r <==> e in entries && IsCandidate(e) && e.name !in TrackedFolders(tracker)
    ensures SortedByName(r)
  {
    var candidates := Candidates(entries);
    var folders := SortByName(candidates);
    assert forall e :: e in folders <==> e in candidates by {
      forall e ensures e in folders <==> e in candidates {
        assert e in folders <==> e in multiset(folders);
      }
    }
    UntrackedSorted(folders, TrackedFolders(tracker));
    Untracked(folders, TrackedFolders(tracker))
  }

  datatype OutputFile = OutputFile(name: string, content: string)

  /** What one run does: the files it writes, the folders it converts, and the new tracker if any. */
  datatype Plan = Plan(files: seq<OutputFile>, converted: seq<string>, tracker: Option<string>)

  function Names(es: seq<DirEntry>): (r: seq<string>)
    ensures |r| == |es| && forall k :: 0 <= k < |es| ==> r[k] == es[k].name
  {
    seq(|es|, k requires 0 <= k < |es| => es[k].name)
  }

  /** The file written for `folder` under number `n`. */
  function OutputFor(n: nat, folder: DirEntry): OutputFile {
    OutputFile(WranglerName(n, folder.name), StripMarkers(folder.migrationSql))
  }

  /** The files for `folders`, numbered from `next` on (the loop's `nextNum++`). */
  function Outputs(folders: seq<DirEntry>, next: nat): (r: seq<OutputFile>)
    ensures |r| == |folders|
  {
    seq(|folders|, k requires 0 <= k < |folders| => OutputFor(next + k, folders[k]))
  }

  /**
   * One run of the converter: numbering starts after the existing files,
   * each converted folder takes the next number, and the tracker (old
   * entries, then new ones) is written only when something was converted.
   */
  function PlanConversion(existing: seq<string>, entries: seq<DirEntry>, tracker: Option<string>): (p: Plan)
    requires WellFormedExisting(existing)
    ensures |p.files| == |p.converted|
    ensures p.tracker.Some? <==> |p.converted| > 0
    ensures p.tracker.Some? ==> p.tracker.value == JoinLines(TrackedFolders(tracker) + p.converted)
  {
    var start := NextNumber(existing);
    var folders := ToConvert(entries, tracker);
    var files := Outputs(folders, start);
    var converted := Names(folders);
    Plan(files, converted,
         if |converted| > 0 then Some(JoinLines(TrackedFolders(tracker) + converted)) else None)
  }

  /** The converted folders are the ones `ToConvert` picks, in the same order. */
  lemma PlanConvertedNames(existing: seq<string>, entries: seq<DirEntry>, tracker: Option<string>)
    requires WellFormedExisting(existing)
    ensures var p := PlanConversion(existing, entries, tracker);
            var folders := ToConvert(entries, tracker);
            && |p.files| == |p.converted| == |folders|
            && forall k :: 0 <= k < |folders| ==> p.converted[k] == folders[k].name
  {
  }

  lemma NamesMember(es: seq<DirEntry>, x: string)
    ensures x in Names(es) <==> exists e :: e in es && e.name == x
  {
    if x in Names(es) {
      var k :| 0 <= k < |es| && Names(es)[k] == x;
      assert es[k] in es;
    }
    if exists e :: e in es && e.name == x {
      var e :| e in es && e.name == x;
      var k :| 0 <= k < |es| && es[k] == e;
      assert Names(es)[k] == x;
    }
  }

  /** The k-th converted folder, in name order, is written under number `NextNumber(existing) + k`. */
  lemma PlanFileAt(existing: seq<string>, entries: seq<DirEntry>, tracker: Option<string>, k: nat)
    requires WellFormedExisting(existing)
    requires k < |ToConvert(entries, tracker)|
    ensures var p := PlanConversion(existing, entries, tracker);
            var folders := ToConvert(entries, tracker);
            k < |p.files| && p.files[k] == OutputFor(NextNumber(existing) + k, folders[k])
  {
    var p := PlanConversion(existing, entries, tracker);
    var folders := ToConvert(entries, tracker);
    assert p.files == Outputs(folders, NextNumber(existing));
  }

  /**
   * Which folders are converted: exactly the timestamped directories holding
   * `migration.sql` that the tracker does not list.
   */
  lemma PlanConvertsUntrackedCandidates(existing: seq<string>, entries: seq<DirEntry>, tracker: Option<string>)
    requires WellFormedExisting(existing)
    ensures var p := PlanConversion(existing, entries, tracker);
            forall x :: x in p.converted <==>
              exists e :: e in entries && IsCandidate(e) && e.name !in TrackedFolders(tracker) && e.name == x
  {
    var p := PlanConversion(existing, entries, tracker);
    var folders := ToConvert(entries, tracker);
    assert p.converted == Names(folders);
    forall x ensures x in p.converted <==>
                     exists e :: e in entries && IsCandidate(e) && e.name !in TrackedFolders(tracker) && e.name == x {
      NamesMember(folders, x);
    }
  }

  /** The written SQL carries no statement-breakpoint marker. */
  lemma PlanStripsMarkers(existing: seq<string>, entries: seq<DirEntry>, tracker: Option<string>)
    requires WellFormedExisting(existing)
    ensures var p := PlanConversion(existing, entries, tracker);
            forall k :: 0 <= k < |p.files| ==> !ContainsMarker(p.files[k].content)
  {
    var p := PlanConversion(existing, entries, tracker);
    var folders := ToConvert(entries, tracker);
    PlanConvertedNames(existing, entries, tracker);
    forall k | 0 <= k < |p.files| ensures !ContainsMarker(p.files[k].content) {
      PlanFileAt(existing, entries, tracker, k);
      assert p.files[k].content == StripMarkers(folders[k].migrationSql);
      StripMarkersRemovesAll(folders[k].migrationSql);
    }
  }

  /**
   * The numbers of one run are consecutive from `NextNumber(existing)` and
   * are read back from the written names, so the files of one run have
   * distinct names and a later run numbers after them.
   */
  lemma PlanNumbersContinue(existing: seq<string>, entries: seq<DirEntry>, tracker: Option<string>)
    requires WellFormedExisting(existing)
    ensures var p := PlanConversion(existing, entries, tracker);
            && (forall k :: 0 <= k < |p.files| ==> LeadingNumber(p.files[k].name) == NextNumber(existing) + k)
            && (forall i, j :: 0 <= i < j < |p.files| ==> p.files[i].name != p.files[j].name)
  {
    var p := PlanConversion(existing, entries, tracker);
    var start := NextNumber(existing);
    PlanConvertedNames(existing, entries, tracker);
    forall k | 0 <= k < |p.files| ensures LeadingNumber(p.files[k].name) == start + k {
      PlanFileNumber(existing, entries, tracker, k);
    }
  }

  lemma PlanFileNumber(existing: seq<string>, entries: seq<DirEntry>, tracker: Option<string>, k: nat)
    requires WellFormedExisting(existing)
    requires k < |PlanConversion(existing, entries, tracker).files|
    ensures LeadingNumber(PlanConversion(existing, entries, tracker).files[k].name) == NextNumber(existing) + k
  {
    var folders := ToConvert(entries, tracker);
    PlanConvertedNames(existing, entries, tracker);
    PlanFileAt(existing, entries, tracker, k);
    WranglerNameNumber(NextNumber(existing) + k, folders[k].name);
  }

  /**
   * Written back, the tracker lists every previously tracked folder and every
   * folder converted now, so a second run skips them all.
   */
  lemma TrackerRecordsConverted(existing: seq<string>, entries: seq<DirEntry>, tracker: Option<string>)
    requires WellFormedExisting(existing)
    requires forall e :: e in entries ==> '\n' !in e.name
    requires forall x :: x in TrackedFolders(tracker) ==> '\n' !in x
    ensures var p := PlanConversion(existing, entries, tracker);
            p.tracker.Some? ==>
              forall x :: x in TrackedFolders(p.tracker) <==> x in TrackedFolders(tracker) || x in p.converted
  {
    var p := PlanConversion(existing, entries, tracker);
    var folders := ToConvert(entries, tracker);
    PlanConvertedNames(existing, entries, tracker);
    if p.tracker.Some? {
      var xs := TrackedFolders(tracker) + p.converted;
      forall x | x in xs ensures '\n' !in x && x != "" {
        if x in p.converted {
          var k :| 0 <= k < |p.converted| && p.converted[k] == x;
          assert folders[k] in folders;
        }
      }
      SplitJoin(xs);
      assert NonEmpty(xs) == xs by { NonEmptyKeepsAll(xs); }
    }
  }

  lemma {:induction false} NonEmptyKeepsAll(xs: seq<string>)
    requires forall x :: x in xs ==> x != ""
    ensures NonEmpty(xs) == xs
  {
    if |xs| > 0 {
      assert xs[0] in xs;
      assert forall x :: x in xs[1..] ==> x in xs;
      NonEmptyKeepsAll(xs[1..]);
      assert xs == [xs[0]] + xs[1..];
    }
  }
}
