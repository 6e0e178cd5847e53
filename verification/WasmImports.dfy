/** Reading the private import modules off a core wasm binary (sections 5.2.2 and 5.5.5 of the
    WebAssembly Core Specification). `text` stands for the lenient UTF-8 decoding of a name. */
module WasmImports {
  import opened Options
  import opened HexFields

  /** A read past the end of the file. */
  datatype Fault = IndexError

  const MAGIC: seq<byte> := [0, 0x61, 0x73, 0x6D]
  const PRIVATE := "almide:"

  predicate IsPrivate(name: string) {
    PRIVATE <= name
  }

  // ---------------------------------------------------------------- numbers

  /** The number at `i` and where it ends. */
  function LebAt(b: seq<byte>, i: nat): (r: Result<(nat, nat), Fault>)
    ensures r.Ok? ==> i < r.value.1 <= |b|
    decreases |b| - i
  {
    if i >= |b| then Err(IndexError)
    else if b[i] < 128 then Ok((b[i], i + 1))
    else
      match LebAt(b, i + 1)
      case Ok((n, j)) => Ok((b[i] - 128 + 128 * n, j))
      case Err(e) => Err(e)
  }

  /** Seven bits a byte, the lowest first; or-ing the shifted bits in adds them. */
  method Leb(b: seq<byte>, start: nat) returns (r: Result<(nat, nat), Fault>)
    ensures r == LebAt(b, start)
  {
    var n: nat := 0;
    var scale: nat := 1;
    var i := start;
    while i < |b|
      invariant LebAt(b, start) == Shifted(n, scale, LebAt(b, i))
      decreases |b| - i
    {
      ShiftOn(b, i, n, scale);
      n := n + b[i] % 128 * scale;
      scale := scale * 128;
      i := i + 1;
      if b[i - 1] < 128 {
        return Ok((n, i));
      }
    }
    r := Err(IndexError);
  }

  function Shifted(n: nat, scale: nat, r: Result<(nat, nat), Fault>): Result<(nat, nat), Fault> {
    match r
    case Ok((m, j)) => Ok((n + m * scale, j))
    case Err(e) => Err(e)
  }

  lemma ShiftOn(b: seq<byte>, i: nat, n: nat, scale: nat)
    requires i < |b|
    ensures b[i] < 128 ==> Shifted(n, scale, LebAt(b, i)) == Ok((n + b[i] % 128 * scale, i + 1))
    ensures b[i] >= 128 ==>
      Shifted(n, scale, LebAt(b, i)) == Shifted(n + b[i] % 128 * scale, scale * 128, LebAt(b, i + 1))
  {
    if b[i] >= 128 && LebAt(b, i + 1).Ok? {
      var m := LebAt(b, i + 1).value.0;
      Distribute(b[i] - 128, m, scale);
    }
  }

  lemma Distribute(low: nat, m: nat, scale: nat)
    ensures (low + 128 * m) * scale == low * scale + m * (scale * 128)
  {
  }

  /** Bytes that encode a number, with or without leading zeros. */
  predicate IsLeb(bs: seq<byte>) {
    bs != [] && bs[|bs| - 1] < 128 && forall i :: 0 <= i < |bs| - 1 ==> bs[i] >= 128
  }

  function Value(bs: seq<byte>): nat {
    if bs == [] then 0 else bs[0] % 128 + 128 * Value(bs[1..])
  }

  /** The shortest encoding. */
  function Encoded(n: nat): seq<byte> {
    if n < 128 then [n] else [n % 128 + 128] + Encoded(n / 128)
  }

  /** Every natural number has an encoding, and it means that number. */
  lemma {:induction false} EncodedMeans(n: nat)
    ensures IsLeb(Encoded(n)) && Value(Encoded(n)) == n
  {
    if n >= 128 {
      EncodedMeans(n / 128);
      assert Encoded(n)[1..] == Encoded(n / 128);
    } else {
      assert Encoded(n)[1..] == [];
    }
  }

  predicate Stands(b: seq<byte>, i: nat, part: seq<byte>) {
    i + |part| <= |b| && b[i..i + |part|] == part
  }

  lemma StandsSplit(b: seq<byte>, i: nat, x: seq<byte>, y: seq<byte>)
    requires Stands(b, i, x + y)
    ensures Stands(b, i, x) && Stands(b, i + |x|, y)
  {
    var part := b[i..i + |x + y|];
    assert b[i..i + |x|] == part[..|x|] && b[i + |x|..i + |x| + |y|] == part[|x|..];
  }

  /** Any encoding is read back, whatever follows it. */
  lemma {:induction false} ReadsLeb(b: seq<byte>, i: nat, bs: seq<byte>)
    requires IsLeb(bs) && Stands(b, i, bs)
    ensures LebAt(b, i) == Ok((Value(bs), i + |bs|))
    decreases |bs|
  {
    assert b[i] == b[i..i + |bs|][0];
    if |bs| > 1 {
      assert bs == [bs[0]] + bs[1..];
      StandsSplit(b, i, [bs[0]], bs[1..]);
      ReadsLeb(b, i + 1, bs[1..]);
    } else {
      assert bs[1..] == [];
    }
  }

  // ---------------------------------------------------------------- names, limits, descriptions

  /** A slice that stops at the end of the file. */
  function Slice(b: seq<byte>, i: nat, k: nat): seq<byte>
    requires i <= k
  {
    if i >= |b| then [] else if k >= |b| then b[i..] else b[i..k]
  }

  function NameAt(b: seq<byte>, i: nat): Result<(seq<byte>, nat), Fault> {
    match LebAt(b, i)
    case Ok((n, j)) => Ok((Slice(b, j, j + n), j + n))
    case Err(e) => Err(e)
  }

  function SkipLeb(b: seq<byte>, i: nat): Result<nat, Fault> {
    match LebAt(b, i)
    case Ok((_, j)) => Ok(j)
    case Err(e) => Err(e)
  }

  /** A flag byte, a minimum, and a maximum if the flag is odd. */
  function LimitsAt(b: seq<byte>, j: nat): Result<nat, Fault> {
    if j >= |b| then Err(IndexError)
    else
      match SkipLeb(b, j + 1)
      case Err(e) => Err(e)
      case Ok(k) => if b[j] % 2 == 1 then SkipLeb(b, k) else Ok(k)
  }

  /** What is imported, by its kind: a function, a table, a memory, and anything else as a global. */
  function DescAt(b: seq<byte>, j: nat): Result<nat, Fault> {
    if j >= |b| then Err(IndexError)
    else if b[j] == 0 then SkipLeb(b, j + 1)
    else if b[j] == 1 then LimitsAt(b, j + 2)
    else if b[j] == 2 then LimitsAt(b, j + 1)
    else Ok(j + 3)
  }

  function Noted(found: seq<string>, name: string): seq<string> {
    if IsPrivate(name) && name !in found then found + [name] else found
  }

  /** One import: its module, its name and its description. */
  function ImportAt(b: seq<byte>, j: nat): Result<(seq<byte>, nat), Fault> {
    match NameAt(b, j)
    case Err(e) => Err(e)
    case Ok((name, k)) =>
      match NameAt(b, k)
      case Err(e) => Err(e)
      case Ok((_, l)) =>
        match DescAt(b, l)
        case Err(e) => Err(e)
        case Ok(end) => Ok((name, end))
  }

  function ImportsAt(
    b: seq<byte>, j: nat, count: nat, found: seq<string>, text: seq<byte> -> string): Result<seq<string>, Fault>
    decreases count
  {
    if count == 0 then Ok(found)
    else
      match ImportAt(b, j)
      case Err(e) => Err(e)
      case Ok((name, k)) => ImportsAt(b, k, count - 1, Noted(found, text(name)), text)
  }

  /** The sections from `i` on, up to the import section. */
  function SectionsAt(b: seq<byte>, i: nat, text: seq<byte> -> string): Result<seq<string>, Fault>
    decreases |b| - i
  {
    if i >= |b| then Ok([])
    else
      match LebAt(b, i + 1)
      case Err(e) => Err(e)
      case Ok((size, j)) =>
        if b[i] == 2 then
          match LebAt(b, j)
          case Err(e) => Err(e)
          case Ok((count, k)) => ImportsAt(b, k, count, [], text)
        else SectionsAt(b, j + size, text)
  }

  method Limits(b: seq<byte>, start: nat) returns (r: Result<nat, Fault>)
    ensures r == LimitsAt(b, start)
  {
    if start >= |b| {
      return Err(IndexError);
    }
    var least := Leb(b, start + 1);
    if least.Err? {
      return Err(least.error);
    }
    if b[start] % 2 == 0 {
      return Ok(least.value.1);
    }
    var most := Leb(b, least.value.1);
    if most.Err? {
      return Err(most.error);
    }
    r := Ok(most.value.1);
  }

  method Desc(b: seq<byte>, start: nat) returns (r: Result<nat, Fault>)
    ensures r == DescAt(b, start)
  {
    if start >= |b| {
      return Err(IndexError);
    }
    var kind, j := b[start], start + 1;
    if kind == 0 {
      var index := Leb(b, j);
      r := if index.Ok? then Ok(index.value.1) else Err(index.error);
    } else if kind == 1 {
      r := Limits(b, j + 1);
    } else if kind == 2 {
      r := Limits(b, j);
    } else {
      r := Ok(j + 2);
    }
  }

  method Name(b: seq<byte>, start: nat) returns (r: Result<(seq<byte>, nat), Fault>)
    ensures r == NameAt(b, start)
  {
    var size := Leb(b, start);
    if size.Err? {
      return Err(size.error);
    }
    var (n, i) := size.value;
    r := Ok((Slice(b, i, i + n), i + n));
  }

  method OneImport(b: seq<byte>, start: nat) returns (r: Result<(seq<byte>, nat), Fault>)
    ensures r == ImportAt(b, start)
  {
    hide NameAt;
    hide DescAt;
    var module_ := Name(b, start);
    if module_.Err? {
      return Err(module_.error);
    }
    var name := Name(b, module_.value.1);
    if name.Err? {
      return Err(name.error);
    }
    var end := Desc(b, name.value.1);
    r := if end.Ok? then Ok((module_.value.0, end.value)) else Err(end.error);
  }

  method Imports(b: seq<byte>, start: nat, count: nat, text: seq<byte> -> string)
    returns (r: Result<seq<string>, Fault>)
    ensures r == ImportsAt(b, start, count, [], text)
  {
    hide ImportAt;
    var j, found := start, [];
    for c := 0 to count
      invariant ImportsAt(b, start, count, [], text) == ImportsAt(b, j, count - c, found, text)
    {
      var one := OneImport(b, j);
      if one.Err? {
        return Err(one.error);
      }
      j := one.value.1;
      found := Noted(found, text(one.value.0));
    }
    r := Ok(found);
  }

  /** The private import modules of a file; none of one that is no wasm binary. */
  method PrivateImports(b: seq<byte>, text: seq<byte> -> string) returns (r: Result<seq<string>, Fault>)
    ensures r == if MAGIC <= b then SectionsAt(b, 8, text) else Ok([])
    ensures |b| < 4 || b[0] != 0 || b[1] != 97 || b[2] != 115 || b[3] != 109 ==> r == Ok([])
  {
    hide LebAt;
    hide ImportsAt;
    if !(MAGIC <= b) {
      return Ok([]);
    }
    var i := 8;
    while i < |b|
      invariant SectionsAt(b, 8, text) == SectionsAt(b, i, text)
      decreases |b| - i
    {
      var id := b[i];
      var size := Leb(b, i + 1);
      if size.Err? {
        return Err(size.error);
      }
      var j := size.value.1;
      if id == 2 {
        var count := Leb(b, j);
        if count.Err? {
          return Err(count.error);
        }
        r := Imports(b, count.value.1, count.value.0, text);
        return;
      }
      i := j + size.value.0;
    }
    r := Ok([]);
  }

  // ---------------------------------------------------------------- encoded modules

  datatype Description =
    | Func(index: seq<byte>)
    | Table(element: byte, limits: Limit)
    | Memory(limits: Limit)
    | Global(value: byte, mutability: byte)

  /** `flags` odd if there is a maximum. */
  datatype Limit = Limit(flags: byte, least: seq<byte>, most: Option<seq<byte>>)

  /** An import, the lengths of its names in any encoding. */
  datatype Import = Import(size: seq<byte>, name: seq<byte>, fieldSize: seq<byte>, field: seq<byte>, what: Description)

  datatype Section = Section(id: byte, size: seq<byte>, body: seq<byte>)

  /** A binary: a version, sections that import nothing, and perhaps an import section, followed by
      anything. */
  datatype Binary = Binary(version: seq<byte>, before: seq<Section>, imports: Option<ImportSection>)

  datatype ImportSection = ImportSection(size: seq<byte>, count: seq<byte>, items: seq<Import>, after: seq<byte>)

  predicate IsLimit(l: Limit) {
    IsLeb(l.least) && (l.flags % 2 == 1 <==> l.most.Some?) && (l.most.Some? ==> IsLeb(l.most.value))
  }

  predicate IsDescription(d: Description) {
    match d
    case Func(index) => IsLeb(index)
    case Table(_, limits) => IsLimit(limits)
    case Memory(limits) => IsLimit(limits)
    case Global(_, _) => true
  }

  predicate IsImport(m: Import) {
    && IsLeb(m.size) && Value(m.size) == |m.name|
    && IsLeb(m.fieldSize) && Value(m.fieldSize) == |m.field|
    && IsDescription(m.what)
  }

  predicate IsSection(s: Section) {
    s.id != 2 && IsLeb(s.size) && Value(s.size) == |s.body|
  }

  predicate IsBinary(m: Binary) {
    && |m.version| == 4
    && (forall i :: 0 <= i < |m.before| ==> IsSection(m.before[i]))
    && (m.imports.Some? ==>
      && IsLeb(m.imports.value.size) && IsLeb(m.imports.value.count)
      && Value(m.imports.value.count) == |m.imports.value.items|
      && forall i :: 0 <= i < |m.imports.value.items| ==> IsImport(m.imports.value.items[i]))
  }

  function LimitBytes(l: Limit): seq<byte> {
    [l.flags] + l.least + (if l.most.Some? then l.most.value else [])
  }

  function DescriptionBytes(d: Description): seq<byte> {
    match d
    case Func(index) => [0] + index
    case Table(element, limits) => [1, element] + LimitBytes(limits)
    case Memory(limits) => [2] + LimitBytes(limits)
    case Global(value, mutability) => [3, value, mutability]
  }

  function ImportBytes(m: Import): seq<byte> {
    (m.size + m.name) + ((m.fieldSize + m.field) + DescriptionBytes(m.what))
  }

  function ImportsBytes(ms: seq<Import>): seq<byte> {
    if ms == [] then [] else ImportBytes(ms[0]) + ImportsBytes(ms[1..])
  }

  function SectionBytes(s: Section): seq<byte> {
    [s.id] + (s.size + s.body)
  }

  function SectionsBytes(ss: seq<Section>): seq<byte> {
    if ss == [] then [] else SectionBytes(ss[0]) + SectionsBytes(ss[1..])
  }

  function ImportSectionBytes(s: ImportSection): seq<byte> {
    [2] + (s.size + (s.count + (ImportsBytes(s.items) + s.after)))
  }

  function Bytes(m: Binary): seq<byte> {
    ([0, 97, 115, 109] + m.version)
    + (SectionsBytes(m.before) + (if m.imports.Some? then ImportSectionBytes(m.imports.value) else []))
  }

  // ---------------------------------------------------------------- reading them back

  lemma ReadsName(b: seq<byte>, i: nat, size: seq<byte>, name: seq<byte>)
    requires IsLeb(size) && Value(size) == |name| && Stands(b, i, size + name)
    ensures NameAt(b, i) == Ok((name, i + |size + name|))
  {
    StandsSplit(b, i, size, name);
    ReadsLeb(b, i, size);
    var j := i + |size|;
    assert b[j..j + |name|] == name;
    assert Slice(b, j, j + |name|) == name;
  }

  lemma LocatesLimit(b: seq<byte>, j: nat, flags: byte, least: seq<byte>, most: seq<byte>)
    requires Stands(b, j, [flags] + least + most)
    ensures j < |b| && b[j] == flags && Stands(b, j + 1, least) && Stands(b, j + 1 + |least|, most)
  {
    StandsSplit(b, j, [flags] + least, most);
    StandsSplit(b, j, [flags], least);
    assert b[j..j + 1][0] == b[j];
    hide Stands;
  }

  lemma SkipsLeb(b: seq<byte>, i: nat, s: seq<byte>)
    requires IsLeb(s) && Stands(b, i, s)
    ensures SkipLeb(b, i) == Ok(i + |s|)
  {
    ReadsLeb(b, i, s);
    hide LebAt;
  }

  lemma LimitEnds(b: seq<byte>, j: nat, k: nat, end: nat)
    requires j < |b| && SkipLeb(b, j + 1) == Ok(k)
    requires if b[j] % 2 == 1 then SkipLeb(b, k) == Ok(end) else end == k
    ensures LimitsAt(b, j) == Ok(end)
  {
    hide SkipLeb;
  }

  lemma ReadsLimit(b: seq<byte>, j: nat, l: Limit)
    requires IsLimit(l) && Stands(b, j, LimitBytes(l))
    ensures LimitsAt(b, j) == Ok(j + |LimitBytes(l)|)
  {
    var most := if l.most.Some? then l.most.value else [];
    assert LimitBytes(l) == [l.flags] + l.least + most;
    assert IsLeb(l.least) && (l.flags % 2 == 1 <==> l.most.Some?) && (l.most.Some? ==> IsLeb(most));
    hide *;
    LocatesLimit(b, j, l.flags, l.least, most);
    var k := j + 1 + |l.least|;
    assert |[l.flags] + l.least + most| == 1 + |l.least| + |most|;
    SkipsLeb(b, j + 1, l.least);
    if l.most.Some? {
      SkipsLeb(b, k, most);
    }
    LimitEnds(b, j, k, k + |most|);
  }

  lemma ReadsFunc(b: seq<byte>, j: nat, index: seq<byte>)
    requires IsLeb(index) && Stands(b, j, [0] + index)
    ensures DescAt(b, j) == Ok(j + |[0] + index|)
  {
    StandsSplit(b, j, [0], index);
    assert b[j] == b[j..j + 1][0];
    ReadsLeb(b, j + 1, index);
  }

  lemma ReadsTable(b: seq<byte>, j: nat, element: byte, l: Limit)
    requires IsLimit(l) && Stands(b, j, [1, element] + LimitBytes(l))
    ensures DescAt(b, j) == Ok(j + |[1, element] + LimitBytes(l)|)
  {
    StandsSplit(b, j, [1, element], LimitBytes(l));
    assert b[j] == b[j..j + 2][0];
    ReadsLimit(b, j + 2, l);
    hide LimitsAt;
  }

  lemma ReadsMemory(b: seq<byte>, j: nat, l: Limit)
    requires IsLimit(l) && Stands(b, j, [2] + LimitBytes(l))
    ensures DescAt(b, j) == Ok(j + |[2] + LimitBytes(l)|)
  {
    StandsSplit(b, j, [2], LimitBytes(l));
    assert b[j] == b[j..j + 1][0];
    ReadsLimit(b, j + 1, l);
    hide LimitsAt;
  }

  lemma ReadsDescription(b: seq<byte>, j: nat, d: Description)
    requires IsDescription(d) && Stands(b, j, DescriptionBytes(d))
    ensures DescAt(b, j) == Ok(j + |DescriptionBytes(d)|)
  {
    match d
    case Func(index) => ReadsFunc(b, j, index);
    case Table(element, limits) => ReadsTable(b, j, element, limits);
    case Memory(limits) => ReadsMemory(b, j, limits);
    case Global(value, mutability) =>
      assert b[j] == b[j..j + 3][0];
  }

  lemma LocatesImport(b: seq<byte>, j: nat, first: seq<byte>, second: seq<byte>, what: seq<byte>)
    requires Stands(b, j, first + (second + what))
    ensures Stands(b, j, first) && Stands(b, j + |first|, second) && Stands(b, j + |first| + |second|, what)
  {
    hide Stands;
    StandsSplit(b, j, first, second + what);
    StandsSplit(b, j + |first|, second, what);
  }

  lemma ReadsImport(b: seq<byte>, j: nat, m: Import)
    requires IsImport(m) && Stands(b, j, ImportBytes(m))
    ensures ImportAt(b, j) == Ok((m.name, j + |ImportBytes(m)|))
  {
    var first, second, what := m.size + m.name, m.fieldSize + m.field, DescriptionBytes(m.what);
    hide Stands;
    hide ImportAt;
    LocatesImport(b, j, first, second, what);
    var k, l := j + |first|, j + |first| + |second|;
    assert j + |ImportBytes(m)| == l + |what|;
    ReadsImportParts(b, j, m, k, l);
  }

  lemma ReadsImportParts(b: seq<byte>, j: nat, m: Import, k: nat, l: nat)
    requires IsImport(m) && k == j + |m.size + m.name| && l == k + |m.fieldSize + m.field|
    requires Stands(b, j, m.size + m.name) && Stands(b, k, m.fieldSize + m.field)
    requires Stands(b, l, DescriptionBytes(m.what))
    ensures ImportAt(b, j) == Ok((m.name, l + |DescriptionBytes(m.what)|))
  {
    var what := DescriptionBytes(m.what);
    hide ImportAt;
    hide NameAt;
    hide DescAt;
    hide Stands;
    hide DescriptionBytes;
    ReadsName(b, j, m.size, m.name);
    ReadsName(b, k, m.fieldSize, m.field);
    ReadsDescription(b, l, m.what);
    ReadsParts(b, j, m.name, k, m.field, l, l + |what|);
  }

  lemma ReadsParts(b: seq<byte>, j: nat, name: seq<byte>, k: nat, field: seq<byte>, l: nat, end: nat)
    requires NameAt(b, j) == Ok((name, k)) && NameAt(b, k) == Ok((field, l)) && DescAt(b, l) == Ok(end)
    ensures ImportAt(b, j) == Ok((name, end))
  {
    hide NameAt;
    hide DescAt;
  }

  /** The private ones of the names, each where it comes first. */
  function Distinct(ms: seq<Import>, text: seq<byte> -> string, found: seq<string>): seq<string>
    decreases |ms|
  {
    if ms == [] then found else Distinct(ms[1..], text, Noted(found, text(ms[0].name)))
  }

  lemma {:induction false} ReadsImports(
    b: seq<byte>, j: nat, ms: seq<Import>, found: seq<string>, text: seq<byte> -> string)
    requires (forall i :: 0 <= i < |ms| ==> IsImport(ms[i])) && Stands(b, j, ImportsBytes(ms))
    ensures ImportsAt(b, j, |ms|, found, text) == Ok(Distinct(ms, text, found))
    decreases |ms|
  {
    hide ImportBytes;
    hide IsImport;
    hide Noted;
    hide ImportAt;
    hide Stands;
    if ms != [] {
      StandsSplit(b, j, ImportBytes(ms[0]), ImportsBytes(ms[1..]));
      ReadsImport(b, j, ms[0]);
      ReadsImports(b, j + |ImportBytes(ms[0])|, ms[1..], Noted(found, text(ms[0].name)), text);
    }
  }

  lemma LocatesSection(b: seq<byte>, i: nat, s: Section)
    requires Stands(b, i, SectionBytes(s))
    ensures i < |b| && b[i] == s.id && Stands(b, i + 1, s.size)
    ensures |SectionBytes(s)| == 1 + |s.size| + |s.body|
  {
    StandsSplit(b, i, [s.id], s.size + s.body);
    assert b[i..i + 1][0] == b[i];
    hide Stands;
    StandsSplit(b, i + 1, s.size, s.body);
  }

  lemma SkipsSection(b: seq<byte>, i: nat, s: Section, text: seq<byte> -> string)
    requires IsSection(s) && Stands(b, i, SectionBytes(s))
    ensures SectionsAt(b, i, text) == SectionsAt(b, i + |SectionBytes(s)|, text)
  {
    LocatesSection(b, i, s);
    ReadsLeb(b, i + 1, s.size);
    SectionSkipped(b, i, Value(s.size), i + 1 + |s.size|, text);
    hide SectionsAt;
    hide SectionBytes;
    hide Stands;
    hide LebAt;
  }

  lemma SectionSkipped(b: seq<byte>, i: nat, size: nat, j: nat, text: seq<byte> -> string)
    requires i < |b| && b[i] != 2 && LebAt(b, i + 1) == Ok((size, j))
    ensures SectionsAt(b, i, text) == SectionsAt(b, j + size, text)
  {
    hide LebAt;
  }

  lemma {:induction false} SkipsSections(
    b: seq<byte>, i: nat, ss: seq<Section>, text: seq<byte> -> string)
    requires (forall k :: 0 <= k < |ss| ==> IsSection(ss[k])) && Stands(b, i, SectionsBytes(ss))
    ensures SectionsAt(b, i, text) == SectionsAt(b, i + |SectionsBytes(ss)|, text)
    decreases |ss|
  {
    hide SectionsAt;
    hide SectionBytes;
    hide IsSection;
    hide Stands;
    if ss != [] {
      StandsSplit(b, i, SectionBytes(ss[0]), SectionsBytes(ss[1..]));
      SkipsSection(b, i, ss[0], text);
      SkipsSections(b, i + |SectionBytes(ss[0])|, ss[1..], text);
    }
  }

  /** Where the parts of an import section stand. */
  lemma LocatesParts(b: seq<byte>, i: nat, x: seq<byte>, y: seq<byte>, z: seq<byte>)
    requires Stands(b, i, [2] + (x + (y + z)))
    ensures i < |b| && b[i] == 2 && Stands(b, i + 1, x) && Stands(b, i + 1 + |x|, y) && Stands(b, i + 1 + |x| + |y|, z)
  {
    StandsSplit(b, i, [2], x + (y + z));
    assert b[i] == b[i..i + 1][0];
    hide Stands;
    StandsSplit(b, i + 1, x, y + z);
    StandsSplit(b, i + 1 + |x|, y, z);
  }

  lemma LocatesImports(b: seq<byte>, i: nat, s: ImportSection)
    requires Stands(b, i, ImportSectionBytes(s))
    ensures i < |b| && b[i] == 2 && Stands(b, i + 1, s.size) && Stands(b, i + 1 + |s.size|, s.count)
    ensures Stands(b, i + 1 + |s.size| + |s.count|, ImportsBytes(s.items))
  {
    hide Stands;
    hide ImportsBytes;
    var items := ImportsBytes(s.items);
    LocatesParts(b, i, s.size, s.count, items + s.after);
    StandsSplit(b, i + 1 + |s.size| + |s.count|, items, s.after);
  }

  lemma ReadsImportSection(b: seq<byte>, i: nat, s: ImportSection, text: seq<byte> -> string)
    requires IsLeb(s.size) && IsLeb(s.count) && Value(s.count) == |s.items|
    requires forall k :: 0 <= k < |s.items| ==> IsImport(s.items[k])
    requires Stands(b, i, ImportSectionBytes(s))
    ensures SectionsAt(b, i, text) == Ok(Distinct(s.items, text, []))
  {
    hide *;
    LocatesImports(b, i, s);
    ReadsLeb(b, i + 1, s.size);
    ReadsLeb(b, i + 1 + |s.size|, s.count);
    ReadsImports(b, i + 1 + |s.size| + |s.count|, s.items, [], text);
    FoundImports(b, i, Value(s.size), i + 1 + |s.size|, |s.items|, i + 1 + |s.size| + |s.count|, text);
  }

  lemma FoundImports(
    b: seq<byte>, i: nat, size: nat, j: nat, count: nat, k: nat, text: seq<byte> -> string)
    requires i < |b| && b[i] == 2 && LebAt(b, i + 1) == Ok((size, j)) && LebAt(b, j) == Ok((count, k))
    ensures SectionsAt(b, i, text) == ImportsAt(b, k, count, [], text)
  {
    hide LebAt;
    hide ImportsAt;
  }

  /** From any encoded binary the reader returns its private import modules. */
  lemma ReadsBinary(m: Binary, text: seq<byte> -> string)
    requires IsBinary(m)
    ensures MAGIC <= Bytes(m)
    ensures SectionsAt(Bytes(m), 8, text) ==
      Ok(if m.imports.Some? then Distinct(m.imports.value.items, text, []) else [])
  {
    var b := Bytes(m);
    var rest := if m.imports.Some? then ImportSectionBytes(m.imports.value) else [];
    BinaryHead(m, rest);
    LocatesSections(b, MAGIC + m.version, SectionsBytes(m.before), rest);
    hide *;
    ReadsSections(b, m, rest, text);
  }

  lemma BinaryHead(m: Binary, rest: seq<byte>)
    requires IsBinary(m) && rest == if m.imports.Some? then ImportSectionBytes(m.imports.value) else []
    ensures Bytes(m) == (MAGIC + m.version) + (SectionsBytes(m.before) + rest) && |MAGIC + m.version| == 8
    ensures MAGIC <= Bytes(m)
  {
    hide SectionsBytes;
    hide ImportSectionBytes;
    var head, tail := MAGIC + m.version, SectionsBytes(m.before) + rest;
    assert (head + tail)[..4] == head[..4] == MAGIC;
  }

  /** The sections are skipped, and the import section, if there is one, is read. */
  lemma ReadsSections(b: seq<byte>, m: Binary, rest: seq<byte>, text: seq<byte> -> string)
    requires IsBinary(m) && rest == if m.imports.Some? then ImportSectionBytes(m.imports.value) else []
    requires Stands(b, 8, SectionsBytes(m.before)) && Stands(b, 8 + |SectionsBytes(m.before)|, rest)
    requires |b| == 8 + |SectionsBytes(m.before)| + |rest|
    ensures SectionsAt(b, 8, text) ==
      Ok(if m.imports.Some? then Distinct(m.imports.value.items, text, []) else [])
  {
    hide SectionsBytes;
    hide ImportSectionBytes;
    hide Distinct;
    hide Stands;
    SkipsSections(b, 8, m.before, text);
    if m.imports.Some? {
      hide SectionsAt;
      ReadsImportSection(b, 8 + |SectionsBytes(m.before)|, m.imports.value, text);
    }
  }

  lemma LocatesSections(b: seq<byte>, head: seq<byte>, before: seq<byte>, rest: seq<byte>)
    requires b == head + (before + rest) && |head| == 8
    ensures Stands(b, 8, before) && Stands(b, 8 + |before|, rest) && |b| == 8 + |before| + |rest|
  {
  }

  /** Those are the private module names of the imports, each once, in the order of their first
      occurrence. */
  lemma {:induction false} DistinctMeans(ms: seq<Import>, text: seq<byte> -> string, found: seq<string>, name: string)
    ensures found <= Distinct(ms, text, found)
    ensures name in Distinct(ms, text, found) <==>
      (name in found || (|name| >= 7 && name[..7] == "almide:" && exists i :: 0 <= i < |ms| && text(ms[i].name) == name))
    decreases |ms|
  {
    if ms != [] {
      DistinctMeans(ms[1..], text, Noted(found, text(ms[0].name)), name);
      assert forall i :: 0 < i < |ms| ==> ms[i] == ms[1..][i - 1];
    }
  }

  predicate NoRepeat(found: seq<string>) {
    forall i, j :: 0 <= i < j < |found| ==> found[i] != found[j]
  }

  /** Where a name comes first among the imports, or their number. */
  function FirstOf(ms: seq<Import>, text: seq<byte> -> string, name: string): (i: nat)
    ensures i <= |ms|
  {
    if ms == [] || text(ms[0].name) == name then 0 else 1 + FirstOf(ms[1..], text, name)
  }

  lemma {:induction false} DistinctInOrder(ms: seq<Import>, text: seq<byte> -> string, found: seq<string>)
    requires NoRepeat(found)
    ensures NoRepeat(Distinct(ms, text, found))
    ensures var all := Distinct(ms, text, found);
      forall i, j :: |found| <= i < j < |all| ==> FirstOf(ms, text, all[i]) < FirstOf(ms, text, all[j])
    decreases |ms|
  {
    if ms != [] {
      var name := text(ms[0].name);
      var next := Noted(found, name);
      var all := Distinct(ms, text, found);
      DistinctInOrder(ms[1..], text, next);
      DistinctMeans(ms[1..], text, next, name);
      forall i | |next| <= i < |all|
        ensures all[i] != name
      {
        PrivateOnly(ms[1..], text, next, i);
        assert name in next ==> exists k :: 0 <= k < |next| && all[k] == name;
      }
      forall i, j | |found| <= i < j < |all|
        ensures FirstOf(ms, text, all[i]) < FirstOf(ms, text, all[j])
      {
        assert j >= |next| && all[j] != name;
        assert i < |next| ==> all[i] == next[i] == name;
      }
    }
  }

  lemma {:induction false} PrivateOnly(ms: seq<Import>, text: seq<byte> -> string, found: seq<string>, i: nat)
    requires |found| <= i < |Distinct(ms, text, found)|
    ensures IsPrivate(Distinct(ms, text, found)[i])
    decreases |ms|
  {
    if ms != [] {
      var next := Noted(found, text(ms[0].name));
      DistinctMeans(ms[1..], text, next, "");
      if i >= |next| {
        PrivateOnly(ms[1..], text, next, i);
      }
    }
  }
}
