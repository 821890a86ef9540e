/**
 * The kernel symbol index: loading /proc/kallsyms into a fixed-size table,
 * sorting its used prefix, and resolving addresses by binary search.
 */
module KernelSymbols {
  import opened Options
  import opened Machine

  datatype Symbol = Symbol(addr: UInt64, name: string, owner: string)

  const CAPACITY: nat := 300000
  const KERNEL := "[kernel]"
  const DEFAULT := Symbol(0, "", "[unknown]")
  const BLANK := Symbol(0, "", "")

  // --------------------------------------------------------------------- parsing

  function HexDigit(c: char): Option<nat> {
    if '0' <= c <= '9' then Some(c as nat - '0' as nat)
    else if 'a' <= c <= 'f' then Some(c as nat - 'a' as nat + 10)
    else if 'A' <= c <= 'F' then Some(c as nat - 'A' as nat + 10)
    else None
  }

  function HexValue(s: string): Option<nat> {
    if s == [] then Some(0)
    else
      var high := HexValue(s[..|s| - 1]);
      var low := HexDigit(s[|s| - 1]);
      if high.Some? && low.Some? then Some(16 * high.value + low.value) else None
  }

  // Base 16, 64 bits: empty, malformed and overlong numbers are errors.
  function ParseHex(s: string): Option<UInt64> {
    var v := HexValue(s);
    if s != [] && v.Some? && v.value < TWO64 then Some(v.value) else None
  }

  function HexChar(d: nat): char
    requires d < 16
  {
    "0123456789abcdef"[d]
  }

  // The address as it is printed in a backtrace.
  function Hex(n: nat): (s: string)
    ensures s != []
  {
    if n < 16 then [HexChar(n)] else Hex(n / 16) + [HexChar(n % 16)]
  }

  lemma DigitReadsBack(d: nat)
    requires d < 16
    ensures HexDigit(HexChar(d)) == Some(d)
  {
  }

  lemma {:induction false} HexValueOf(n: nat)
    ensures HexValue(Hex(n)) == Some(n)
  {
    hide HexDigit, HexChar;
    var s := Hex(n);
    DigitReadsBack(n % 16);
    if n < 16 {
      assert s[..0] == [];
    } else {
      HexValueOf(n / 16);
      assert s[..|s| - 1] == Hex(n / 16);
    }
  }

  function Zeros(n: nat): string {
    seq(n, _ => '0')
  }

  // The address as the symbol file prints it, padded with zeros to a width.
  function Padded(n: nat, width: nat): string {
    Zeros(if |Hex(n)| < width then width - |Hex(n)| else 0) + Hex(n)
  }

  lemma {:induction false} ZerosAddNothing(zeros: nat, s: string)
    requires HexValue(s).Some?
    ensures HexValue(Zeros(zeros) + s) == HexValue(s)
    decreases |s|, zeros
  {
    var all := Zeros(zeros) + s;
    if s == [] {
      assert all == Zeros(zeros);
      if zeros > 0 {
        assert all[..|all| - 1] == Zeros(zeros - 1) + [];
        ZerosAddNothing(zeros - 1, []);
      }
    } else {
      assert all[..|all| - 1] == Zeros(zeros) + s[..|s| - 1] && all[|all| - 1] == s[|s| - 1];
      ZerosAddNothing(zeros, s[..|s| - 1]);
    }
  }

  // A printed number reads back as itself, padded or not, if it is of 64 bits, and
  // is an error otherwise.
  lemma HexReadsBack(n: nat, width: nat)
    ensures ParseHex(Padded(n, width)) == if n < TWO64 then Some(n) else None
  {
    HexValueOf(n);
    hide HexValue, Hex;
    ZerosAddNothing(if |Hex(n)| < width then width - |Hex(n)| else 0, Hex(n));
  }

  function Format(sym: Symbol): string {
    sym.name + "/" + Hex(sym.addr) + " " + sym.owner
  }

  // The symbol a split line stands for: three or four words, a text symbol, an address.
  function SymbolOf(words: seq<string>): Option<Symbol> {
    if |words| != 3 && |words| != 4 then None
    else if words[1] != "T" && words[1] != "t" then None
    else
      var addr := ParseHex(words[0]);
      if addr.None? then None
      else Some(Symbol(addr.value, words[2], if |words| == 3 then KERNEL else words[3]))
  }

  function Entries(lines: seq<seq<string>>): seq<Symbol> {
    if lines == [] then []
    else
      var last := SymbolOf(lines[|lines| - 1]);
      Entries(lines[..|lines| - 1]) + if last.Some? then [last.value] else []
  }

  lemma {:induction false} EntriesGrow(lines: seq<seq<string>>, n: nat)
    requires n <= |lines|
    ensures |Entries(lines[..n])| <= |Entries(lines)|
    decreases |lines|
  {
    if n == |lines| {
      assert lines[..n] == lines;
    } else {
      var init := lines[..|lines| - 1];
      assert init[..n] == lines[..n];
      EntriesGrow(init, n);
    }
  }

  lemma EntriesNone()
    ensures Entries([]) == []
  {
  }

  lemma EntriesNext(lines: seq<seq<string>>, i: nat)
    requires i < |lines|
    ensures var e := SymbolOf(lines[i]);
            Entries(lines[..i + 1]) == Entries(lines[..i]) + if e.Some? then [e.value] else []
  {
    assert lines[..i + 1][..i] == lines[..i];
  }

  // A text symbol's line, split into words, as the kernel prints it.
  function Line(sym: Symbol, width: nat, kind: string): seq<string> {
    [Padded(sym.addr, width), kind, sym.name] + if sym.owner == KERNEL then [] else [sym.owner]
  }

  lemma LineReadsBack(sym: Symbol, width: nat, kind: string)
    requires kind == "T" || kind == "t"
    ensures SymbolOf(Line(sym, width, kind)) == Some(sym)
  {
    hide Padded, ParseHex;
    HexReadsBack(sym.addr, width);
  }

  function Printed(syms: seq<Symbol>, width: nat, kind: string): (lines: seq<seq<string>>)
    ensures |lines| == |syms|
  {
    seq(|syms|, i requires 0 <= i < |syms| => Line(syms[i], width, kind))
  }

  // A file of text symbols loads as those symbols, in order.
  lemma {:induction false} FileReadsBack(syms: seq<Symbol>, width: nat, kind: string)
    requires kind == "T" || kind == "t"
    ensures Entries(Printed(syms, width, kind)) == syms
    decreases |syms|
  {
    if syms != [] {
      hide SymbolOf, Line;
      var init := syms[..|syms| - 1];
      FileReadsBack(init, width, kind);
      LineReadsBack(syms[|syms| - 1], width, kind);
      assert Printed(syms, width, kind)[..|syms| - 1] == Printed(init, width, kind);
      assert syms == init + [syms[|syms| - 1]];
    }
  }

  // A line that is not a text symbol's: not three or four words, another kind of
  // symbol, or no address.
  predicate NotText(words: seq<string>) {
    |words| < 3 || |words| > 4 || words[1] !in {"T", "t"} || ParseHex(words[0]).None?
  }

  // Such lines, wherever they stand, add nothing.
  lemma {:induction false} NotTextSkipped(before: seq<seq<string>>, words: seq<string>, after: seq<seq<string>>)
    requires NotText(words)
    ensures Entries(before + [words] + after) == Entries(before + after)
    decreases |after|
  {
    hide ParseHex;
    var lines := before + [words] + after;
    if after == [] {
      assert lines[..|lines| - 1] == before && before + after == before;
    } else {
      var init := after[..|after| - 1];
      NotTextSkipped(before, words, init);
      assert lines[..|lines| - 1] == before + [words] + init;
      assert (before + after)[..|before + after| - 1] == before + init;
    }
  }

  // What is no hexadecimal number is no address, and letters may be of either case.
  lemma AddressesRead()
    ensures ParseHex("") == None && ParseHex("g") == None && ParseHex("-1") == None
    ensures forall k | 0 <= k < 6 :: HexDigit("abcdef"[k]) == HexDigit("ABCDEF"[k]) == Some(10 + k)
  {
    assert "g"[..0] == [] && "-1"[..1] == "-" && "-"[..0] == [];
  }

  // What a backtrace shows of a symbol.
  lemma FormatShows()
    ensures Format(Symbol(0x1f, "do_idle", "[kernel]")) == "do_idle/1f [kernel]"
  {
    assert Hex(0x1f) == Hex(1) + ['f'] && Hex(1) == ['1'];
  }

  // --------------------------------------------------------------------- searching

  predicate Sorted(s: seq<Symbol>) {
    forall i, j | 0 <= i < j < |s| :: s[i].addr <= s[j].addr
  }

  // Where the binary search between i and j ends.
  function Bisect(s: seq<Symbol>, key: UInt64, i: nat, j: nat): (b: nat)
    requires i <= j <= |s|
    ensures i <= b <= j
    decreases j - i
  {
    if i == j then i
    else
      var h := (i + j) / 2;
      if s[h].addr == key then h
      else if s[h].addr < key then Bisect(s, key, h + 1, j)
      else Bisect(s, key, i, h)
  }

  // Which entry the search ends at: the one it hit, or else the one before where
  // it stopped.
  function Place(s: seq<Symbol>, key: UInt64): (p: nat)
    requires s != []
    ensures p < |s|
  {
    var i := Bisect(s, key, 0, |s|);
    if i < |s| && s[i].addr == key then i else if i == 0 then 0 else i - 1
  }

  function Find(s: seq<Symbol>, key: UInt64): Symbol
    requires s != []
  {
    s[Place(s, key)]
  }

  lemma BisectStep(s: seq<Symbol>, key: UInt64, i: nat, j: nat)
    requires i < j <= |s|
    ensures var h := (i + j) / 2;
            Bisect(s, key, i, j) ==
              if s[h].addr == key then h
              else if s[h].addr < key then Bisect(s, key, h + 1, j)
              else Bisect(s, key, i, h)
    ensures Bisect(s, key, j, j) == j
  {
  }

  // The reference: scanning every entry for the greatest address not above the key.
  function LinearScan(s: seq<Symbol>, key: UInt64): Option<Symbol> {
    if s == [] then None
    else
      var best := LinearScan(s[..|s| - 1], key);
      var e := s[|s| - 1];
      if e.addr <= key && (best.None? || best.value.addr <= e.addr) then Some(e) else best
  }

  // Everything before i is below the key, everything from j on above it.
  predicate Below(s: seq<Symbol>, key: UInt64, i: nat) {
    forall k | 0 <= k < i && k < |s| :: s[k].addr < key
  }

  predicate Above(s: seq<Symbol>, key: UInt64, j: nat) {
    forall k | j <= k < |s| :: key < s[k].addr
  }

  lemma Narrow(s: seq<Symbol>, key: UInt64, h: nat)
    requires Sorted(s) && h < |s|
    ensures s[h].addr < key ==> Below(s, key, h + 1)
    ensures key < s[h].addr ==> Above(s, key, h)
  {
  }

  lemma {:induction false} BisectBounds(s: seq<Symbol>, key: UInt64, i: nat, j: nat)
    requires Sorted(s) && i <= j <= |s| && Below(s, key, i) && Above(s, key, j)
    ensures var b := Bisect(s, key, i, j);
            (b < |s| && s[b].addr == key) || (Below(s, key, b) && Above(s, key, b))
    decreases j - i
  {
    hide Sorted, Below, Above;
    if i < j {
      BisectStep(s, key, i, j);
      var h := (i + j) / 2;
      Narrow(s, key, h);
      if s[h].addr < key {
        BisectBounds(s, key, h + 1, j);
      } else if s[h].addr > key {
        BisectBounds(s, key, i, h);
      }
    }
  }

  // In a sorted table the scan ends with the last entry not above the key.
  lemma {:induction false} ScanSorted(s: seq<Symbol>, key: UInt64, b: nat)
    requires Sorted(s) && b < |s| && s[b].addr <= key
    requires forall k | b < k < |s| :: key < s[k].addr
    ensures LinearScan(s, key) == Some(s[b])
    decreases |s|
  {
    var init := s[..|s| - 1];
    if b == |s| - 1 {
      ScanBelow(init, key, s[b].addr);
    } else {
      ScanSorted(init, key, b);
    }
  }

  lemma {:induction false} ScanBelow(s: seq<Symbol>, key: UInt64, most: UInt64)
    requires forall k | 0 <= k < |s| :: s[k].addr <= most
    ensures var r := LinearScan(s, key); r.Some? ==> r.value.addr <= most && r.value.addr <= key
  {
    if s != [] {
      ScanBelow(s[..|s| - 1], key, most);
    }
  }

  // No two different entries sit exactly at this address.
  predicate AloneAt(s: seq<Symbol>, key: UInt64) {
    forall i, j | 0 <= i < j < |s| && s[i].addr == key == s[j].addr :: s[i] == s[j]
  }

  // Binary search agrees with the scan: always on the address, and on the symbol
  // too unless different symbols share exactly the address asked for.
  lemma FindAgreesWithScan(s: seq<Symbol>, key: UInt64)
    requires s != [] && Sorted(s) && s[0].addr == 0
    ensures var r := Find(s, key);
            var scan := LinearScan(s, key);
            r in s && scan.Some? && r.addr == scan.value.addr &&
            (AloneAt(s, key) ==> r == scan.value)
  {
    hide Bisect, LinearScan, Sorted;
    BisectBounds(s, key, 0, |s|);
    var b := Bisect(s, key, 0, |s|);
    if b < |s| && s[b].addr == key {
      var last := LastAt(s, key, b);
      ScanSorted(s, key, last);
    } else {
      ScanSorted(s, key, b - 1);
    }
  }

  lemma LastAt(s: seq<Symbol>, key: UInt64, b: nat) returns (last: nat)
    requires Sorted(s) && b < |s| && s[b].addr == key
    ensures b <= last < |s| && s[last].addr == key && forall k | last < k < |s| :: key < s[k].addr
  {
    last := b;
    while last + 1 < |s| && s[last + 1].addr == key
      invariant b <= last < |s| && s[last].addr == key
    {
      last := last + 1;
    }
    assert last + 1 < |s| ==> s[last].addr <= s[last + 1].addr;
    forall k | last < k < |s| ensures key < s[k].addr {
      assert s[last + 1].addr <= s[k].addr;
    }
  }

  // Where they do share it, the search may stop at another one than the scan.
  lemma ScanDiffers()
    ensures var s := [DEFAULT, Symbol(5, "a", KERNEL), Symbol(5, "b", KERNEL)];
            Sorted(s) && Find(s, 5) == s[1] && LinearScan(s, 5) == Some(s[2])
  {
    var s := [DEFAULT, Symbol(5, "a", KERNEL), Symbol(5, "b", KERNEL)];
    BisectStep(s, 5, 0, 3);
    ScanSorted(s, 5, 2);
  }

  // ------------------------------------------------- what sorting leaves undetermined

  // Entry i has the greatest address not above the key.
  predicate Floor(s: seq<Symbol>, key: UInt64, i: nat)
    requires i < |s|
  {
    s[i].addr <= key && forall k | 0 <= k < |s| && s[k].addr <= key :: s[k].addr <= s[i].addr
  }

  // No two different entries share the greatest address not above the key.
  predicate AloneBelow(s: seq<Symbol>, key: UInt64) {
    forall i, j | 0 <= i < j < |s| && Floor(s, key, i) && Floor(s, key, j) :: s[i] == s[j]
  }

  // However the table is put in order, the key resolves to the same symbol.
  ghost predicate Determined(s: seq<Symbol>, key: UInt64)
    requires s != []
  {
    forall t | Arranged(s, t) :: Find(t, key) == Find(s, key)
  }

  // A result the sort may give, which keeps no order among equal addresses.
  predicate Arranged(s: seq<Symbol>, t: seq<Symbol>) {
    |t| == |s| && multiset(t) == multiset(s) && Sorted(t)
  }

  lemma FindIsFloor(s: seq<Symbol>, key: UInt64)
    requires s != [] && Sorted(s) && s[0].addr == 0
    ensures Floor(s, key, Place(s, key))
  {
    hide Bisect;
    BisectBounds(s, key, 0, |s|);
  }

  lemma {:induction false} BisectSame(s: seq<Symbol>, t: seq<Symbol>, key: UInt64, i: nat, j: nat)
    requires |s| == |t| && i <= j <= |s| && forall k | 0 <= k < |s| :: s[k].addr == t[k].addr
    ensures Bisect(s, key, i, j) == Bisect(t, key, i, j)
    decreases j - i
  {
    if i < j {
      var h := (i + j) / 2;
      BisectSame(s, t, key, h + 1, j);
      BisectSame(s, t, key, i, h);
    }
  }

  function Swapped(s: seq<Symbol>, p: nat, q: nat): seq<Symbol>
    requires p < |s| && q < |s|
  {
    s[p := s[q]][q := s[p]]
  }

  lemma SwapArranges(s: seq<Symbol>, p: nat, q: nat)
    requires Sorted(s) && p < |s| && q < |s| && s[p].addr == s[q].addr
    ensures Arranged(s, Swapped(s, p, q))
  {
    SwapMultiset(s, p, q);
    var t := Swapped(s, p, q);
    assert forall k | 0 <= k < |s| :: t[k].addr == s[k].addr;
    hide Swapped;
  }

  lemma SwapMultiset(s: seq<Symbol>, p: nat, q: nat)
    requires p < |s| && q < |s|
    ensures multiset(Swapped(s, p, q)) == multiset(s)
  {
    assert multiset(s[p := s[q]]) == multiset(s) - multiset{s[p]} + multiset{s[q]};
  }

  // Swapping the entry the search finds for another at its address changes what
  // is found.
  lemma SwapIsFound(s: seq<Symbol>, key: UInt64, q: nat)
    requires s != [] && q < |s| && s[q].addr == Find(s, key).addr
    ensures Find(Swapped(s, Place(s, key), q), key) == s[q]
  {
    hide Bisect;
    BisectSame(s, Swapped(s, Place(s, key), q), key, 0, |s|);
  }

  // The loaded symbols alone determine what an address resolves to, whatever the
  // sort does with equal addresses, exactly when no two different ones share the
  // greatest address not above it.
  lemma DeterminedExactly(s: seq<Symbol>, key: UInt64)
    requires Sorted(s) && DEFAULT in s
    ensures Determined(s, key) <==> AloneBelow(s, key)
  {
    hide Place, Floor, Sorted;
    FirstIsZero(s, DEFAULT);
    FindIsFloor(s, key);
    if AloneBelow(s, key) {
      forall t | Arranged(s, t) ensures Find(t, key) == Find(s, key) {
        ArrangedFinds(s, t, key);
      }
    } else {
      var i, j :| 0 <= i < j < |s| && Floor(s, key, i) && Floor(s, key, j) && s[i] != s[j];
      var p := Place(s, key);
      var q := if s[i] == Find(s, key) then j else i;
      SameFloor(s, key, p, q);
      SwapArranges(s, p, q);
      SwapIsFound(s, key, q);
    }
  }

  lemma SameFloor(s: seq<Symbol>, key: UInt64, p: nat, q: nat)
    requires p < |s| && q < |s| && Floor(s, key, p)
    ensures Floor(s, key, q) <==> s[p].addr == s[q].addr
  {
  }

  lemma SameEntries(s: seq<Symbol>, t: seq<Symbol>, k: nat) returns (i: nat)
    requires multiset(t) == multiset(s) && k < |t|
    ensures i < |s| && s[i] == t[k]
  {
    assert t[k] in multiset(s);
    i :| i < |s| && s[i] == t[k];
  }

  lemma SameFloors(s: seq<Symbol>, t: seq<Symbol>, key: UInt64, p: nat, q: nat, i: nat, k: nat)
    requires p < |s| && i < |s| && q < |t| && k < |t| && s[i] == t[q] && t[k] == s[p]
    requires Floor(s, key, p) && Floor(t, key, q)
    ensures s[i].addr == s[p].addr
  {
  }

  lemma ArrangedFinds(s: seq<Symbol>, t: seq<Symbol>, key: UInt64)
    requires Sorted(s) && DEFAULT in s && AloneBelow(s, key) && Arranged(s, t)
    ensures Find(t, key) == Find(s, key)
  {
    hide Sorted, Place, Floor;
    FirstIsZero(s, DEFAULT);
    FindIsFloor(s, key);
    assert DEFAULT in multiset(s);
    FirstIsZero(t, DEFAULT);
    FindIsFloor(t, key);
    var p, q := Place(s, key), Place(t, key);
    var i := SameEntries(s, t, q);
    var k := SameEntries(t, s, p);
    SameFloors(s, t, key, p, q, i, k);
    SameFloor(s, key, p, i);
  }

  // -------------------------------------------------------------------- backtraces

  // The addresses before the first zero, at most maxDepth of them.
  function Depth(stack: seq<UInt64>, maxDepth: int): (n: nat)
    ensures n <= |stack|
  {
    if stack == [] || stack[0] == 0 || maxDepth <= 0 then 0 else 1 + Depth(stack[1..], maxDepth - 1)
  }

  function Resolve(s: seq<Symbol>, addrs: seq<UInt64>): seq<string>
    requires s != []
  {
    if addrs == [] then []
    else
      var sym := Find(s, addrs[|addrs| - 1]);
      Resolve(s, addrs[..|addrs| - 1]) + if sym.name != "" then [Format(sym)] else []
  }

  lemma ResolveNext(s: seq<Symbol>, addrs: seq<UInt64>, i: nat)
    requires s != [] && i < |addrs|
    ensures var sym := Find(s, addrs[i]);
            Resolve(s, addrs[..i + 1]) ==
              Resolve(s, addrs[..i]) + if sym.name != "" then [Format(sym)] else []
  {
    hide Find, Format;
    assert addrs[..i + 1][..i] == addrs[..i];
  }

  lemma ResolveNone(s: seq<Symbol>)
    requires s != []
    ensures Resolve(s, []) == []
  {
  }

  // The same by scanning, for a table whose first entry starts at address 0.
  function ScanAll(s: seq<Symbol>, addrs: seq<UInt64>): seq<string> {
    if addrs == [] then []
    else
      var sym := LinearScan(s, addrs[|addrs| - 1]);
      ScanAll(s, addrs[..|addrs| - 1]) + if sym.Some? && sym.value.name != "" then [Format(sym.value)] else []
  }

  // A backtrace is what scanning gives, where no different symbols share exactly
  // one of its addresses.
  lemma {:induction false} ResolveIsScan(s: seq<Symbol>, addrs: seq<UInt64>)
    requires s != [] && Sorted(s) && s[0].addr == 0
    requires forall k | 0 <= k < |addrs| :: AloneAt(s, addrs[k])
    ensures Resolve(s, addrs) == ScanAll(s, addrs)
  {
    if addrs != [] {
      hide Find, LinearScan, Sorted, Format, AloneAt;
      ResolveIsScan(s, addrs[..|addrs| - 1]);
      FindAgreesWithScan(s, addrs[|addrs| - 1]);
    }
  }

  // And the loaded symbols alone determine it, where none of its addresses has
  // different symbols at the greatest address not above it.
  lemma {:induction false} TraceDetermined(s: seq<Symbol>, t: seq<Symbol>, addrs: seq<UInt64>)
    requires Sorted(s) && DEFAULT in s && Arranged(s, t)
    requires forall k | 0 <= k < |addrs| :: AloneBelow(s, addrs[k])
    ensures Resolve(s, addrs) == Resolve(t, addrs)
  {
    if addrs != [] {
      hide Find, Sorted, Format, AloneBelow, Arranged;
      TraceDetermined(s, t, addrs[..|addrs| - 1]);
      ArrangedFinds(s, t, addrs[|addrs| - 1]);
    }
  }

  lemma {:induction false} DepthIs(stack: seq<UInt64>, maxDepth: int, n: nat)
    requires n <= |stack| && (forall k | 0 <= k < n :: stack[k] != 0 && k < maxDepth)
    requires n < |stack| ==> stack[n] == 0 || n >= maxDepth
    ensures Depth(stack, maxDepth) == n
    decreases n
  {
    if n > 0 {
      assert stack[0] != 0 && 0 < maxDepth;
      DepthIs(stack[1..], maxDepth - 1, n - 1);
    }
  }

  // ------------------------------------------------------------------- the sorting

  // `s` with its entry at k moved down to j.
  function Moved(s: seq<Symbol>, j: nat, k: nat): (t: seq<Symbol>)
    requires j <= k < |s|
    ensures |t| == |s|
  {
    seq(|s|, p requires 0 <= p < |s| => if p < j || k < p then s[p] else if p == j then s[k] else s[p - 1])
  }

  lemma MovedMultiset(s: seq<Symbol>, j: nat, k: nat)
    requires j <= k < |s|
    ensures multiset(Moved(s, j, k)) == multiset(s)
  {
    assert s == s[..j] + s[j..k] + [s[k]] + s[k + 1..];
    assert Moved(s, j, k) == s[..j] + [s[k]] + s[j..k] + s[k + 1..];
  }

  lemma MovedSorted(s: seq<Symbol>, j: nat, k: nat)
    requires j <= k < |s| && Sorted(s[..k])
    requires j > 0 ==> s[j - 1].addr <= s[k].addr
    requires forall q | j <= q < k :: s[k].addr < s[q].addr
    ensures Sorted(Moved(s, j, k)[..k + 1])
  {
    assert forall p, q | 0 <= p < q < k :: s[p].addr <= s[q].addr by {
      assert forall p | 0 <= p < k :: s[..k][p] == s[p];
    }
    var t := Moved(s, j, k);
    forall p, q | 0 <= p < q < k + 1 ensures t[p].addr <= t[q].addr {
      if q == j {
        assert p < j - 1 ==> s[p].addr <= s[j - 1].addr;
      }
    }
  }

  // Swaps the entry at k down to its place among the sorted entries before it.
  method Sink(a: array<Symbol>, k: nat)
    requires k < a.Length && Sorted(a[..k])
    modifies a
    ensures Sorted(a[..k + 1]) && multiset(a[..]) == old(multiset(a[..]))
    ensures forall p | k < p < a.Length :: a[p] == old(a[p])
  {
    hide Sorted;
    ghost var was := a[..];
    assert was[..k] == a[..k];
    var j := k;
    while j > 0 && a[j].addr < a[j - 1].addr
      invariant 0 <= j <= k && a[j] == was[k]
      invariant forall p | 0 <= p < j || k < p < a.Length :: a[p] == was[p]
      invariant forall p | j < p <= k :: a[p] == was[p - 1]
      invariant forall q | j <= q < k :: was[k].addr < was[q].addr
    {
      a[j - 1], a[j] := a[j], a[j - 1];
      j := j - 1;
    }
    ghost var now := Moved(was, j, k);
    assert a[..] == now;
    assert a[..k + 1] == now[..k + 1];
    hide Moved;
    MovedMultiset(was, j, k);
    MovedSorted(was, j, k);
  }

  // Sorts the first n entries, leaving the rest of the array alone.
  method SortPrefix(a: array<Symbol>, n: nat)
    requires n <= a.Length
    modifies a
    ensures Sorted(a[..n]) && multiset(a[..n]) == multiset(old(a[..n]))
    ensures a[n..] == old(a[n..])
  {
    ghost var was := a[..];
    for i := 0 to n
      invariant Sorted(a[..i]) && multiset(a[..]) == multiset(was)
      invariant forall p | n <= p < a.Length :: a[p] == was[p]
    {
      Sink(a, i);
    }
    assert a[n..] == was[n..] && a[..][..n] == a[..n] && a[..][n..] == a[n..];
    PrefixMultiset(a[..], was, n);
  }

  lemma PrefixMultiset(s: seq<Symbol>, t: seq<Symbol>, n: nat)
    requires n <= |s| == |t| && multiset(s) == multiset(t) && s[n..] == t[n..]
    ensures multiset(s[..n]) == multiset(t[..n])
  {
    assert s == s[..n] + s[n..] && t == t[..n] + t[n..];
    assert multiset(s[..n]) == multiset(s) - multiset(s[n..]);
    assert multiset(t[..n]) == multiset(t) - multiset(t[n..]);
  }

  // --------------------------------------------------------------------- the index

  // A table of the default entry and the file's text symbols.
  ghost predicate Holds(s: seq<Symbol>, file: Option<seq<seq<string>>>) {
    file.Some? && multiset(s) == multiset([DEFAULT] + Entries(file.value))
  }

  // A full table whose every symbol is below the address.
  predicate Beyond(s: seq<Symbol>, key: UInt64) {
    |s| == CAPACITY && forall k | 0 <= k < |s| :: s[k].addr < key
  }

  datatype Outcome = Loaded | NotReadable | Overflow

  class SymbolIndex {
    var cache: array<Symbol>
    var counter: nat
    var isInit: bool

    // A table to search: a sorted used prefix and blank entries after it.
    ghost predicate Searchable()
      reads this, cache
    {
      cache.Length == CAPACITY && 1 <= counter <= CAPACITY &&
      Sorted(cache[..counter]) &&
      forall k | counter <= k < CAPACITY :: cache[k] == BLANK
    }

    // Fills the table line by line, from the default entry on; false when a
    // symbol would go past its end.
    method Fill(lines: seq<seq<string>>) returns (fits: bool)
      requires cache.Length == CAPACITY && counter == 1 && cache[0] == DEFAULT
      requires forall k | 1 <= k < CAPACITY :: cache[k] == BLANK
      modifies this`counter, cache
      ensures fits <==> 1 + |Entries(lines)| <= CAPACITY
      ensures fits ==> counter == 1 + |Entries(lines)| && cache[..counter] == [DEFAULT] + Entries(lines)
      ensures fits ==> forall k | counter <= k < CAPACITY :: cache[k] == BLANK
    {
      hide Entries, SymbolOf;
      EntriesNone();
      assert lines[..0] == [];
      for i := 0 to |lines|
        invariant 1 <= counter <= CAPACITY && cache[..counter] == [DEFAULT] + Entries(lines[..i])
        invariant forall k | counter <= k < CAPACITY :: cache[k] == BLANK
      {
        EntriesNext(lines, i);
        EntriesGrow(lines, i + 1);
        var symbol := SymbolOf(lines[i]);
        if symbol.Some? {
          if counter == CAPACITY {
            return false;
          }
          cache[counter] := symbol.value;
          counter := counter + 1;
        }
      }
      assert lines[..|lines|] == lines;
      return true;
    }

    method SortUsed()
      requires cache.Length == CAPACITY && 1 <= counter <= CAPACITY && cache[0] == DEFAULT
      requires forall k | counter <= k < CAPACITY :: cache[k] == BLANK
      modifies cache
      ensures Searchable() && cache[0].addr == 0
      ensures multiset(cache[..counter]) == multiset(old(cache[..counter]))
    {
      hide Sorted;
      ghost var loaded, rest := cache[..counter], cache[counter..];
      assert loaded[0] == DEFAULT;
      assert forall k | 0 <= k < |rest| :: rest[k] == BLANK;
      SortPrefix(cache, counter);
      assert DEFAULT in multiset(loaded) && DEFAULT in multiset(cache[..counter]);
      FirstIsZero(cache[..counter], DEFAULT);
      assert forall k | counter <= k < CAPACITY :: cache[k] == rest[k - counter];
    }

    // Loading fills a fresh table and sorts its used part.
    method LoadKAllSymbols(file: Option<seq<seq<string>>>) returns (outcome: Outcome)
      modifies this
      ensures outcome == NotReadable <==> file.None?
      ensures outcome == Overflow <==> file.Some? && 1 + |Entries(file.value)| > CAPACITY
      ensures outcome == Overflow ==> isInit == old(isInit)
      ensures outcome != Overflow ==> Searchable() && cache[0].addr == 0
      ensures outcome == Loaded ==>
                isInit && multiset(cache[..counter]) == multiset([DEFAULT] + Entries(file.value))
      ensures outcome == NotReadable ==> cache[..counter] == [DEFAULT] && isInit == old(isInit)
    {
      hide Entries, Sorted;
      cache := new Symbol[CAPACITY](_ => BLANK);
      cache[0] := DEFAULT;
      counter := 1;
      assert cache[..1] == [DEFAULT];
      SingleSorted(DEFAULT);
      if file.None? {
        return NotReadable;
      }
      var fits := Fill(file.value);
      if !fits {
        return Overflow;
      }
      SortUsed();
      isInit := true;
      return Loaded;
    }

    // The search loop; None stands for reading past the end of a full table.
    method Search(key: UInt64) returns (r: Option<Symbol>)
      requires Searchable()
      ensures r.None? <==> Beyond(cache[..counter], key)
      ensures r.Some? ==> r.value == Find(cache[..counter], key)
    {
      hide Bisect, Sorted;
      ghost var s := cache[..counter];
      BisectBounds(s, key, 0, |s|);
      var i, j := 0, counter;
      while i < j
        invariant 0 <= i <= j <= counter && Bisect(s, key, i, j) == Bisect(s, key, 0, |s|)
      {
        BisectStep(s, key, i, j);
        var h := (i + j) / 2;
        if cache[h].addr == key {
          i := h;
          break;
        } else if cache[h].addr < key {
          i := h + 1;
        } else {
          j := h;
        }
      }
      ghost var b := Bisect(s, key, 0, |s|);
      assert i == b;
      assert forall k | 0 <= k < counter :: s[k] == cache[k];
      if i == CAPACITY {
        return None;
      }
      if cache[i].addr == key {
        return Some(cache[i]);
      }
      if i == 0 {
        return Some(cache[0]);
      }
      return Some(cache[i - 1]);
    }

    // Resolves an address, loading the table first if no load has succeeded yet.
    // None stands for an index past the table, in the load or in the search.
    method KsymbolSearch(key: UInt64, file: Option<seq<seq<string>>>) returns (r: Option<Symbol>)
      requires isInit ==> Searchable()
      modifies this
      ensures old(isInit) ==> cache == old(cache) && counter == old(counter)
      ensures old(isInit) ==> cache[..counter] == old(cache[..counter])
      ensures isInit <==> old(isInit) || (file.Some? && 1 + |Entries(file.value)| <= CAPACITY)
      ensures isInit ==> Searchable()
      ensures !old(isInit) && isInit ==> Holds(cache[..counter], file)
      ensures !isInit && file.None? ==> r == Some(DEFAULT)
      ensures r.Some? ==> Searchable() && r.value == Find(cache[..counter], key)
      ensures r.None? <==> if isInit then Beyond(cache[..counter], key) else file.Some?
    {
      hide Entries, Find, Sorted;
      if !isInit {
        var outcome := LoadKAllSymbols(file);
        if outcome == Overflow {
          return None;
        }
        if outcome == NotReadable {
          FindDefault(key);
        }
      }
      r := Search(key);
    }

    // Looks each address up in turn; the first loads the table if need be.
    method Resolved(addrs: seq<UInt64>, file: Option<seq<seq<string>>>) returns (trace: Option<seq<string>>)
      requires isInit ==> Searchable()
      modifies this
      ensures old(isInit) ==> cache == old(cache) && counter == old(counter)
      ensures old(isInit) ==> cache[..counter] == old(cache[..counter])
      ensures isInit <==> old(isInit) || (addrs != [] && file.Some? && 1 + |Entries(file.value)| <= CAPACITY)
      ensures isInit ==> Searchable()
      ensures !old(isInit) && isInit ==> Holds(cache[..counter], file)
      ensures trace.Some? ==> trace.value == if isInit then Resolve(cache[..counter], addrs) else []
      ensures trace.None? <==>
                if isInit then exists k :: 0 <= k < |addrs| && Beyond(cache[..counter], addrs[k])
                else addrs != [] && file.Some?
    {
      hide Entries, Find, Format, Sorted, Resolve, Holds, Beyond;
      var lines := [];
      assert addrs[..0] == [];
      if isInit { ResolveNone(cache[..counter]); }
      for i := 0 to |addrs|
        invariant old(isInit) ==> cache == old(cache) && counter == old(counter)
        invariant old(isInit) ==> cache[..counter] == old(cache[..counter])
        invariant isInit <==> old(isInit) || (0 < i && file.Some? && 1 + |Entries(file.value)| <= CAPACITY)
        invariant isInit ==> Searchable()
        invariant !old(isInit) && isInit ==> Holds(cache[..counter], file)
        invariant lines == if isInit then Resolve(cache[..counter], addrs[..i]) else []
        invariant if isInit then forall k | 0 <= k < i :: !Beyond(cache[..counter], addrs[k]) else i == 0 || file.None?
      {
        var sym := KsymbolSearch(addrs[i], file);
        if sym.None? {
          return None;
        }
        if isInit {
          ResolveNone(cache[..counter]);
          ResolveNext(cache[..counter], addrs, i);
        }
        if sym.value.name != "" {
          lines := lines + [Format(sym.value)];
        }
      }
      assert addrs[..|addrs|] == addrs;
      return Some(lines);
    }

    // The symbols of a stack of addresses, those without a name left out; the
    // first address loads the table if need be. None stands for an index past
    // the table, in the load or in a search.
    method DumpKernelBackTrace(stack: seq<UInt64>, maxDepth: int, file: Option<seq<seq<string>>>)
      returns (trace: Option<seq<string>>)
      requires isInit ==> Searchable()
      modifies this
      ensures old(isInit) ==> cache == old(cache) && counter == old(counter)
      ensures old(isInit) ==> cache[..counter] == old(cache[..counter])
      ensures isInit <==> old(isInit) ||
                          (0 < Depth(stack, maxDepth) && file.Some? && 1 + |Entries(file.value)| <= CAPACITY)
      ensures isInit ==> Searchable()
      ensures !old(isInit) && isInit ==> Holds(cache[..counter], file)
      ensures trace.Some? ==>
                trace.value == if isInit then Resolve(cache[..counter], stack[..Depth(stack, maxDepth)]) else []
      ensures trace.None? <==>
                if isInit then exists k :: 0 <= k < Depth(stack, maxDepth) && Beyond(cache[..counter], stack[k])
                else 0 < Depth(stack, maxDepth) && file.Some?
    {
      hide Entries, Find, Format, Sorted, Depth;
      var addrs := [];
      for i := 0 to |stack|
        invariant addrs == stack[..i]
        invariant forall k | 0 <= k < i :: stack[k] != 0 && k < maxDepth
      {
        if stack[i] == 0 || i >= maxDepth {
          break;
        }
        addrs := addrs + [stack[i]];
      }
      DepthIs(stack, maxDepth, |addrs|);
      trace := Resolved(addrs, file);
    }
  }

  lemma FindDefault(key: UInt64)
    ensures Find([DEFAULT], key) == DEFAULT
  {
    BisectStep([DEFAULT], key, 0, 1);
  }

  lemma SingleSorted(e: Symbol)
    ensures Sorted([e])
  {
  }

  lemma FirstIsZero(s: seq<Symbol>, e: Symbol)
    requires Sorted(s) && e in s && e.addr == 0
    ensures s != [] && s[0].addr == 0
  {
    var k :| 0 <= k < |s| && s[k] == e;
    if k > 0 { assert s[0].addr <= s[k].addr; }
  }
}
