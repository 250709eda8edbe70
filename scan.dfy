/**
 * What `WiFiConnect.scan_wifi_networks` makes of the terse output of
 * `nmcli -t -f SSID,SIGNAL,SECURITY device wifi list`: a parse of each line,
 * de-duplication by SSID keeping the first record in output order, and a stable
 * sort by signal, strongest first. The method that runs these steps lives in
 * the Portal module; this module gives the functions it is proved against and
 * the properties of those functions.
 */
module Scan {
  import opened Wrappers
  import opened Text

  /** One visible network, as the `/scan` endpoint reports it. */
  datatype Network = Network(ssid: string, signal: int, security: string)

  /** The signal given to a record whose signal field is not all digits. */
  const NoSignal: int := -100

  /** The security label given to a record whose security field is empty. */
  const OpenSecurity: string := "Open"

  // ---------------------------------------------------------------------------
  // Parsing one line
  // ---------------------------------------------------------------------------

  /** The signal field: its decimal value when it is all digits, `NoSignal` otherwise. */
  function ParseSignal(field: string): (signal: int)
    ensures signal >= 0 <==> IsDigits(field)
    ensures signal < 0 ==> signal == NoSignal
  {
    if IsDigits(field) then DecimalValue(field) else NoSignal
  }

  /** A field that is the decimal writing of `n` gives signal `n`. */
  lemma ParseSignalShowNat(n: nat)
    ensures ParseSignal(ShowNat(n)) == n
  {
    DecimalShowNat(n);
  }

  /** A minus sign is not a digit: a negative reading such as "-40" gives `NoSignal`. */
  lemma ParseSignalNegative(digits: string)
    ensures ParseSignal(['-'] + digits) == NoSignal
  {
    assert !IsDigit((['-'] + digits)[0]);
  }

  /**
   * The security field: "Open" when it is empty, otherwise the field stripped.
   * Emptiness is checked before stripping, so a field of blanks gives "".
   */
  function ParseSecurity(field: string): (security: string)
    ensures field == [] ==> security == OpenSecurity
    ensures field != [] ==> security == Strip(field)
    ensures security == OpenSecurity || Strip(security) == security
    ensures security == [] <==> field != [] && forall i :: 0 <= i < |field| ==> IsSpace(field[i])
  {
    StripIdempotent(field);
    StripEmpty(field);
    if field != [] then Strip(field) else OpenSecurity
  }

  /**
   * One line of the scan output, split on ':' into SSID, signal and security;
   * `None` for a blank line or a line with fewer than three fields. Fields after
   * the third are ignored. The SSID is stripped; it may be empty here.
   */
  function ParseLine(line: string): (r: Option<Network>)
    ensures r.Some? <==> line != [] && Count(line, ':') >= 2
    ensures r.Some? ==> Strip(r.value.ssid) == r.value.ssid && ':' !in r.value.ssid
    ensures r.Some? ==> r.value.signal >= 0 || r.value.signal == NoSignal
  {
    if line == [] then None
    else
      var parts := Split(line, ':');
      if |parts| < 3 then None
      else
        var ssid := Strip(parts[0]);
        StripIdempotent(parts[0]);
        assert ':' !in ssid by {
          var lo := LeadingSpace(parts[0]);
          assert ssid == parts[0][lo..lo + |ssid|];
          assert ':' !in parts[0];
        }
        Some(Network(ssid, ParseSignal(parts[1]), ParseSecurity(parts[2])))
  }

  /**
   * A line of three or more ':'-free fields parses field by field; the fields
   * after the third play no part.
   */
  lemma ParseFields(ssid: string, signal: string, security: string, rest: seq<string>)
    requires ':' !in ssid && ':' !in signal && ':' !in security
    requires forall i :: 0 <= i < |rest| ==> ':' !in rest[i]
    ensures ParseLine(Join([ssid, signal, security] + rest, ':'))
            == Some(Network(Strip(ssid), ParseSignal(signal), ParseSecurity(security)))
  {
    var parts := [ssid, signal, security] + rest;
    FieldsFree(ssid, signal, security, rest);
    SplitJoin(parts, ':');
    var line := Join(parts, ':');
    assert line == ssid + [':'] + Join(parts[1..], ':');
    assert ':' in line;
  }

  /** No piece of `[ssid, signal, security] + rest` holds a ':'. */
  lemma FieldsFree(ssid: string, signal: string, security: string, rest: seq<string>)
    requires ':' !in ssid && ':' !in signal && ':' !in security
    requires forall i :: 0 <= i < |rest| ==> ':' !in rest[i]
    ensures forall i :: 0 <= i < |[ssid, signal, security] + rest| ==> ':' !in ([ssid, signal, security] + rest)[i]
  {
    var parts := [ssid, signal, security] + rest;
    forall i | 0 <= i < |parts| ensures ':' !in parts[i] {
      if i >= 3 {
        assert parts[i] == rest[i - 3];
      }
    }
  }

  /**
   * An unescaped terse line for a network with a non-negative signal: its three
   * fields joined with `:`, without the backslash escapes nmcli adds in terse mode.
   */
  function TerseLine(net: Network): string
    requires net.signal >= 0
  {
    Join([net.ssid, ShowNat(net.signal), net.security], ':')
  }

  /**
   * Reading back an unescaped terse line gives the network, for any network the
   * parser can produce with a non-negative signal and a non-empty security label.
   */
  lemma ParseTerseLine(net: Network)
    requires net.signal >= 0
    requires ':' !in net.ssid && Strip(net.ssid) == net.ssid
    requires ':' !in net.security && net.security != [] && Strip(net.security) == net.security
    ensures ParseLine(TerseLine(net)) == Some(net)
  {
    var digits := ShowNat(net.signal);
    assert ':' !in digits by {
      assert forall i :: 0 <= i < |digits| ==> IsDigit(digits[i]);
    }
    assert [net.ssid, digits, net.security] + [] == [net.ssid, digits, net.security];
    ParseFields(net.ssid, digits, net.security, []);
    ParseSignalShowNat(net.signal);
  }

  // ---------------------------------------------------------------------------
  // From output text to records
  // ---------------------------------------------------------------------------

  /** The output stripped as a whole and split on newlines. */
  function Lines(stdout: string): (lines: seq<string>)
    ensures |lines| >= 1
    ensures forall i :: 0 <= i < |lines| ==> '\n' !in lines[i]
  {
    Split(Strip(stdout), '\n')
  }

  /** The records of the lines that parse, in output order. */
  function Records(lines: seq<string>): (recs: seq<Network>)
    ensures |recs| <= |lines|
    ensures forall n :: n in recs ==> Strip(n.ssid) == n.ssid && (n.signal >= 0 || n.signal == NoSignal)
  {
    if lines == [] then []
    else
      var prev := Records(lines[..|lines| - 1]);
      match ParseLine(lines[|lines| - 1])
      case None => prev
      case Some(n) => prev + [n]
  }

  /**
   * A record comes from some line that parses to it: blank lines and lines with
   * fewer than three fields contribute nothing, and every other line contributes.
   */
  lemma {:induction false} RecordsFromLines(lines: seq<string>)
    ensures forall n :: n in Records(lines) <==> exists i :: 0 <= i < |lines| && ParseLine(lines[i]) == Some(n)
  {
    RecordsSound(lines);
    RecordsComplete(lines);
  }

  lemma {:induction false} RecordsSound(lines: seq<string>)
    ensures forall n :: n in Records(lines) ==> exists i :: 0 <= i < |lines| && ParseLine(lines[i]) == Some(n)
  {
    if lines != [] {
      var m := |lines| - 1;
      var init := lines[..m];
      var prev := Records(init);
      RecordsSound(init);
      var last := ParseLine(lines[m]);
      assert Records(lines) == if last.Some? then prev + [last.value] else prev;
      forall n | n in Records(lines)
        ensures exists i :: 0 <= i < |lines| && ParseLine(lines[i]) == Some(n)
      {
        if n in prev {
          var i :| 0 <= i < m && ParseLine(init[i]) == Some(n);
          assert init[i] == lines[i];
        } else {
          assert ParseLine(lines[m]) == Some(n);
        }
      }
    }
  }

  lemma {:induction false} RecordsComplete(lines: seq<string>)
    ensures forall i :: 0 <= i < |lines| && ParseLine(lines[i]).Some? ==> ParseLine(lines[i]).value in Records(lines)
  {
    if lines != [] {
      var m := |lines| - 1;
      var init := lines[..m];
      var prev := Records(init);
      RecordsComplete(init);
      var last := ParseLine(lines[m]);
      assert Records(lines) == if last.Some? then prev + [last.value] else prev;
      forall i | 0 <= i < |lines| && ParseLine(lines[i]).Some?
        ensures ParseLine(lines[i]).value in Records(lines)
      {
        if i < m {
          assert init[i] == lines[i];
          assert ParseLine(lines[i]).value in prev;
        } else {
          assert i == m;
          assert last.value in Records(lines);
        }
      }
    }
  }

  // ---------------------------------------------------------------------------
  // De-duplication by SSID
  // ---------------------------------------------------------------------------

  /** One more line adds its record, if it parses, at the end. */
  lemma RecordsSnoc(lines: seq<string>, line: string)
    ensures Records(lines + [line]) == Records(lines) + (if ParseLine(line).Some? then [ParseLine(line).value] else [])
  {
    assert (lines + [line])[..|lines|] == lines;
  }

  /** The SSIDs that occur in `s`. */
  function SsidsOf(s: seq<Network>): set<string> {
    set n | n in s :: n.ssid
  }

  /** No two records of `s` share an SSID. */
  predicate DistinctSsids(s: seq<Network>) {
    forall i, j :: 0 <= i < j < |s| ==> s[i].ssid != s[j].ssid
  }

  /** `recs[i]` is the first record with its SSID. */
  predicate FirstOccurrence(recs: seq<Network>, i: int)
    requires 0 <= i < |recs|
  {
    forall j :: 0 <= j < i ==> recs[j].ssid != recs[i].ssid
  }

  /**
   * The records in order, dropping those with an empty SSID and those whose
   * SSID an earlier kept record already has (the `seen_ssids` set).
   */
  function Dedup(recs: seq<Network>): (r: seq<Network>)
    ensures |r| <= |recs|
    ensures forall n :: n in r ==> n in recs && n.ssid != []
  {
    if recs == [] then []
    else
      var prev := Dedup(recs[..|recs| - 1]);
      var x := recs[|recs| - 1];
      if x.ssid != [] && x.ssid !in SsidsOf(prev) then prev + [x] else prev
  }

  /** One more record is kept exactly when its SSID is non-empty and not yet seen. */
  lemma DedupSnoc(recs: seq<Network>, x: Network)
    ensures Dedup(recs + [x]) == if x.ssid != [] && x.ssid !in SsidsOf(Dedup(recs)) then Dedup(recs) + [x] else Dedup(recs)
  {
    assert (recs + [x])[..|recs|] == recs;
  }

  lemma SsidsOfSnoc(s: seq<Network>, x: Network)
    ensures SsidsOf(s + [x]) == SsidsOf(s) + {x.ssid}
  {
    assert forall n :: n in s + [x] <==> n in s || n == x;
  }

  /** The kept records have pairwise distinct SSIDs. */
  lemma {:induction false} DedupDistinct(recs: seq<Network>)
    ensures DistinctSsids(Dedup(recs))
  {
    if recs != [] {
      var m := |recs| - 1;
      var prev := Dedup(recs[..m]);
      DedupDistinct(recs[..m]);
      assert recs == recs[..m] + [recs[m]];
      DedupSnoc(recs[..m], recs[m]);
      assert forall i :: 0 <= i < |prev| ==> prev[i].ssid in SsidsOf(prev);
    }
  }

  /** Every non-empty SSID of the input is the SSID of a kept record. */
  lemma {:induction false} DedupComplete(recs: seq<Network>)
    ensures forall i :: 0 <= i < |recs| && recs[i].ssid != [] ==> recs[i].ssid in SsidsOf(Dedup(recs))
  {
    if recs != [] {
      var m := |recs| - 1;
      var init, x := recs[..m], recs[m];
      var prev := Dedup(init);
      DedupComplete(init);
      assert recs == init + [x];
      DedupSnoc(init, x);
      assert SsidsOf(prev) <= SsidsOf(Dedup(recs));
      forall i | 0 <= i < |recs| && recs[i].ssid != [] ensures recs[i].ssid in SsidsOf(Dedup(recs)) {
        if i < m {
          assert init[i] == recs[i];
        }
      }
    }
  }

  /** Every kept record is the first one in the input with its SSID. */
  lemma {:induction false} DedupKeptIsFirst(recs: seq<Network>)
    ensures forall n :: n in Dedup(recs) ==>
      exists i :: 0 <= i < |recs| && recs[i] == n && FirstOccurrence(recs, i)
  {
    if recs != [] {
      var m := |recs| - 1;
      var init, x := recs[..m], recs[m];
      var prev := Dedup(init);
      DedupKeptIsFirst(init);
      assert recs == init + [x];
      DedupSnoc(init, x);
      assert forall j :: 0 <= j < m ==> init[j] == recs[j];
      forall n | n in Dedup(recs)
        ensures exists i :: 0 <= i < |recs| && recs[i] == n && FirstOccurrence(recs, i)
      {
        if n in prev {
          var i :| 0 <= i < m && init[i] == n && FirstOccurrence(init, i);
          assert recs[i] == n && FirstOccurrence(recs, i);
        } else {
          DedupComplete(init);
          assert n == x && x.ssid !in SsidsOf(prev);
          assert FirstOccurrence(recs, m);
        }
      }
    }
  }

  /** The first record with a non-empty SSID is kept. */
  lemma {:induction false} DedupFirstIsKept(recs: seq<Network>)
    ensures forall i :: 0 <= i < |recs| && recs[i].ssid != [] && FirstOccurrence(recs, i) ==>
      recs[i] in Dedup(recs)
  {
    if recs != [] {
      var m := |recs| - 1;
      var init, x := recs[..m], recs[m];
      var prev := Dedup(init);
      DedupFirstIsKept(init);
      assert recs == init + [x];
      DedupSnoc(init, x);
      forall i | 0 <= i < |recs| && recs[i].ssid != [] && FirstOccurrence(recs, i)
        ensures recs[i] in Dedup(recs)
      {
        if i < m {
          assert init[i] == recs[i];
          assert FirstOccurrence(init, i);
        } else if x.ssid in SsidsOf(prev) {
          assert false;
        }
      }
    }
  }

  // ---------------------------------------------------------------------------
  // Stable sort by signal, strongest first (`list.sort(key=signal, reverse=True)`)
  // ---------------------------------------------------------------------------

  /** Signals never increase along `s`. */
  predicate SortedBySignal(s: seq<Network>) {
    forall i, j :: 0 <= i < j < |s| ==> s[i].signal >= s[j].signal
  }

  /** Puts `x` in front of the first record whose signal is not stronger than its own. */
  function Insert(x: Network, s: seq<Network>): (r: seq<Network>)
    ensures |r| == |s| + 1
    ensures forall n :: n in r <==> n in s || n == x
  {
    if s == [] then [x]
    else if s[0].signal <= x.signal then [x] + s
    else [s[0]] + Insert(x, s[1..])
  }

  lemma {:induction false} InsertMultiset(x: Network, s: seq<Network>)
    ensures multiset(Insert(x, s)) == multiset(s) + multiset{x}
  {
    if s != [] && s[0].signal > x.signal {
      InsertMultiset(x, s[1..]);
      assert s == [s[0]] + s[1..];
    }
  }

  lemma {:induction false} InsertSorted(x: Network, s: seq<Network>)
    requires SortedBySignal(s)
    ensures SortedBySignal(Insert(x, s))
  {
    if s != [] && s[0].signal > x.signal {
      InsertSorted(x, s[1..]);
      var rest := Insert(x, s[1..]);
      assert forall k :: 0 <= k < |rest| ==> rest[k] in s[1..] || rest[k] == x;
    }
  }

  /** Insertion sort of `s`, strongest signal first. */
  function SortBySignal(s: seq<Network>): (r: seq<Network>)
    ensures multiset(r) == multiset(s)
    ensures SortedBySignal(r)
  {
    if s == [] then []
    else
      var rest := SortBySignal(s[1..]);
      InsertMultiset(s[0], rest);
      InsertSorted(s[0], rest);
      assert s == [s[0]] + s[1..];
      Insert(s[0], rest)
  }

  /** The records of `s` whose signal is `v`, in order. */
  function WithSignal(s: seq<Network>, v: int): seq<Network> {
    if s == [] then []
    else (if s[0].signal == v then [s[0]] else []) + WithSignal(s[1..], v)
  }

  lemma {:induction false} InsertWithSignal(x: Network, s: seq<Network>, v: int)
    ensures WithSignal(Insert(x, s), v) == (if x.signal == v then [x] else []) + WithSignal(s, v)
  {
    if s != [] && s[0].signal > x.signal {
      var r := Insert(x, s);
      assert r == [s[0]] + Insert(x, s[1..]);
      assert r[1..] == Insert(x, s[1..]);
      InsertWithSignal(x, s[1..], v);
      assert WithSignal(r, v) == (if s[0].signal == v then [s[0]] else []) + WithSignal(r[1..], v);
      assert WithSignal(s, v) == (if s[0].signal == v then [s[0]] else []) + WithSignal(s[1..], v);
      if x.signal == v {
        assert s[0].signal != v;
      } else {
        assert WithSignal(Insert(x, s[1..]), v) == WithSignal(s[1..], v);
      }
    } else if s != [] {
      assert Insert(x, s) == [x] + s;
      assert ([x] + s)[1..] == s;
    }
  }

  /**
   * The sort is stable: the records with any one signal come out in the order
   * they went in.
   */
  lemma {:induction false} SortStable(s: seq<Network>, v: int)
    ensures WithSignal(SortBySignal(s), v) == WithSignal(s, v)
  {
    if s != [] {
      SortStable(s[1..], v);
      InsertWithSignal(s[0], SortBySignal(s[1..]), v);
    }
  }

  lemma {:induction false} WithSignalMembers(s: seq<Network>, v: int)
    ensures forall n :: n in WithSignal(s, v) ==> n in s && n.signal == v
  {
    if s != [] {
      WithSignalMembers(s[1..], v);
    }
  }

  /**
   * Being sorted by signal and keeping the order within each signal determines
   * the result: `SortBySignal` is the only stable sort.
   */
  lemma {:induction false} StableSortUnique(a: seq<Network>, b: seq<Network>)
    requires SortedBySignal(a) && SortedBySignal(b)
    requires forall v :: WithSignal(a, v) == WithSignal(b, v)
    ensures a == b
    decreases |a|
  {
    if a == [] || b == [] {
      if a != [] || b != [] {
        var c := if a == [] then b else a;
        var v := c[0].signal;
        var la, lb := WithSignal(a, v), WithSignal(b, v);
        assert false;
      }
    } else {
      var v, w := a[0].signal, b[0].signal;
      WithSignalMembers(a, w);
      WithSignalMembers(b, v);
      assert WithSignal(a, v)[0] == a[0];
      var nb := WithSignal(b, v)[0];
      assert nb in b && nb.signal == v;
      assert w >= v;
      var na := WithSignal(a, w)[0];
      assert na in a && na.signal == w;
      assert v >= w;
      assert a[0] == b[0];
      forall u ensures WithSignal(a[1..], u) == WithSignal(b[1..], u) {
        var pre := if a[0].signal == u then [a[0]] else [];
        assert WithSignal(a, u) == pre + WithSignal(a[1..], u);
        assert WithSignal(b, u) == pre + WithSignal(b[1..], u);
        assert WithSignal(a, u) == WithSignal(b, u);
        assert WithSignal(a[1..], u) == WithSignal(a, u)[|pre|..];
        assert WithSignal(b[1..], u) == WithSignal(b, u)[|pre|..];
      }
      StableSortUnique(a[1..], b[1..]);
      assert a == [a[0]] + a[1..] && b == [b[0]] + b[1..];
    }
  }

  lemma {:induction false} InsertDistinct(x: Network, s: seq<Network>)
    requires DistinctSsids(s)
    requires forall n :: n in s ==> n.ssid != x.ssid
    ensures DistinctSsids(Insert(x, s))
  {
    if s != [] && s[0].signal > x.signal {
      InsertDistinct(x, s[1..]);
      var rest := Insert(x, s[1..]);
      assert forall k :: 0 <= k < |rest| ==> rest[k] == x || rest[k] in s[1..];
    }
  }

  /** Sorting keeps SSIDs pairwise distinct. */
  lemma {:induction false} SortDistinct(s: seq<Network>)
    requires DistinctSsids(s)
    ensures DistinctSsids(SortBySignal(s))
  {
    if s != [] {
      SortDistinct(s[1..]);
      var t := SortBySignal(s[1..]);
      assert forall n :: n in t ==> n in multiset(s[1..]);
      assert forall n :: n in s[1..] ==> n.ssid != s[0].ssid;
      InsertDistinct(s[0], t);
    }
  }

  // ---------------------------------------------------------------------------
  // The whole scan
  // ---------------------------------------------------------------------------

  /** The records of every line of the scan's output that parses. */
  function ScanRecords(stdout: string): seq<Network> {
    Records(Lines(stdout))
  }

  /** The kept records, before sorting, in the order nmcli printed them. */
  function Kept(stdout: string): seq<Network> {
    Dedup(ScanRecords(stdout))
  }

  /**
   * The networks a scan reports: none when nmcli exits with a non-zero status,
   * otherwise the kept records sorted by signal, strongest first.
   */
  function ScanResult(code: int, stdout: string): seq<Network> {
    if code != 0 then [] else SortBySignal(Kept(stdout))
  }

  /** Sorting neither adds nor loses records. */
  lemma SortMembers(s: seq<Network>)
    ensures forall n :: n in SortBySignal(s) <==> n in s
    ensures SsidsOf(SortBySignal(s)) == SsidsOf(s)
  {
    var r := SortBySignal(s);
    assert forall n :: n in r <==> n in multiset(r);
  }

  /**
   * The shape of the scan result: empty after a failed scan, strongest signal
   * first, equal signals in the order nmcli printed them, no SSID twice.
   */
  lemma ScanResultOrder(code: int, stdout: string)
    ensures code != 0 ==> ScanResult(code, stdout) == []
    ensures SortedBySignal(ScanResult(code, stdout))
    ensures DistinctSsids(ScanResult(code, stdout))
    ensures code == 0 ==> forall v :: WithSignal(ScanResult(code, stdout), v) == WithSignal(Kept(stdout), v)
  {
    if code == 0 {
      var kept := Kept(stdout);
      DedupDistinct(ScanRecords(stdout));
      SortDistinct(kept);
      forall v ensures WithSignal(SortBySignal(kept), v) == WithSignal(kept, v) {
        SortStable(kept, v);
      }
    }
  }

  /**
   * The records of the scan result: each has a non-empty stripped SSID and a
   * parsed signal, each is the first line for its SSID, and every first line
   * with a non-empty SSID is there.
   */
  lemma ScanResultContents(code: int, stdout: string)
    ensures forall n :: n in ScanResult(code, stdout) ==>
      n.ssid != [] && Strip(n.ssid) == n.ssid && (n.signal >= 0 || n.signal == NoSignal)
    ensures code == 0 ==> forall n :: n in ScanResult(code, stdout) ==>
      exists i :: 0 <= i < |ScanRecords(stdout)| && ScanRecords(stdout)[i] == n && FirstOccurrence(ScanRecords(stdout), i)
    ensures code == 0 ==> forall i ::
      0 <= i < |ScanRecords(stdout)| && ScanRecords(stdout)[i].ssid != [] && FirstOccurrence(ScanRecords(stdout), i) ==>
      ScanRecords(stdout)[i] in ScanResult(code, stdout)
    ensures code == 0 ==> forall i :: 0 <= i < |ScanRecords(stdout)| && ScanRecords(stdout)[i].ssid != [] ==>
      ScanRecords(stdout)[i].ssid in SsidsOf(ScanResult(code, stdout))
  {
    if code == 0 {
      var recs := ScanRecords(stdout);
      var kept := Dedup(recs);
      var out := ScanResult(code, stdout);
      assert out == SortBySignal(kept);
      SortMembers(kept);
      DedupKeptIsFirst(recs);
      forall n | n in out
        ensures n.ssid != [] && Strip(n.ssid) == n.ssid && (n.signal >= 0 || n.signal == NoSignal)
        ensures exists i :: 0 <= i < |recs| && recs[i] == n && FirstOccurrence(recs, i)
      {
        assert n in kept;
        assert n in recs;
      }
      DedupFirstIsKept(recs);
      forall i | 0 <= i < |recs| && recs[i].ssid != [] && FirstOccurrence(recs, i)
        ensures recs[i] in out
      {
        assert recs[i] in kept;
      }
      DedupComplete(recs);
    }
  }

  // ---------------------------------------------------------------------------
  // Examples
  // ---------------------------------------------------------------------------

  /**
   * Two records for one SSID followed by one with an empty SSID leave the first
   * record alone, whatever the signals: in particular the survivor need not be
   * the stronger of the two.
   */
  lemma DedupExample(a: Network, b: Network, c: Network)
    requires a.ssid != [] && b.ssid == a.ssid && c.ssid == []
    ensures Dedup([a, b, c]) == [a]
  {
    DedupSnoc([], a);
    assert [] + [a] == [a];
    SsidsOfSnoc([], a);
    DedupSnoc([a], b);
    assert [a] + [b] == [a, b];
    DedupSnoc([a, b], c);
    assert [a, b] + [c] == [a, b, c];
  }

  /** Equal signals keep their order; a stronger record moves in front of them. */
  lemma SortExample(a: Network, b: Network, c: Network)
    requires a.signal == b.signal < c.signal
    ensures SortBySignal([a, b, c]) == [c, a, b]
  {
    var s := [a, b, c];
    assert s[1..] == [b, c];
    SortPair(b, c);
    SortCons(s);
    InsertBehind(a, [c, b]);
    assert [c, b][1..] == [b];
    InsertAhead(a, [b]);
  }

  /** A weaker record followed by a stronger one swaps places. */
  lemma SortPair(b: Network, c: Network)
    requires b.signal < c.signal
    ensures SortBySignal([b, c]) == [c, b]
  {
    var s := [b, c];
    assert s[1..] == [c] && [c][1..] == [];
    SortCons([c]);
    InsertAhead(c, []);
    SortCons(s);
    InsertBehind(b, [c]);
    InsertAhead(b, []);
  }

  /** The sort inserts the first record into the sorted rest. */
  lemma SortCons(s: seq<Network>)
    requires s != []
    ensures SortBySignal(s) == Insert(s[0], SortBySignal(s[1..]))
  {
  }

  /** `x` goes in front of records that are not stronger. */
  lemma InsertAhead(x: Network, s: seq<Network>)
    requires s == [] || s[0].signal <= x.signal
    ensures Insert(x, s) == [x] + s
  {
  }

  /** `x` goes behind a stronger first record. */
  lemma InsertBehind(x: Network, s: seq<Network>)
    requires s != [] && s[0].signal > x.signal
    ensures Insert(x, s) == [s[0]] + Insert(x, s[1..])
  {
  }
}
