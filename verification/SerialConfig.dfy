/** The serial configuration generator: from one list of interfaces it writes a header of indices, a
    header of error codes and the early initialisation, which must fit together.

    The generated text is modelled by what it declares and calls.
 */
module SerialConfig {

  import opened Collections

  /** A bad direction is noticed only while the last file is written. */
  datatype Result<T> = Ok(value: T) | TooMany | TooManyCsp | BadDirection(written: T)

  datatype Kind = I2c | Spi | Uart | Rs232 | Rs422 | Rs485 | Can | Socat | Gpio

  datatype Direction = In | Out | Other

  /** An entry of the configuration: `filters` filters are listed for a CAN interface, which asks for
      `filterNum`.
   */
  datatype Iface = Iface(kind: Kind, ready: bool, name: string, direction: Direction, filters: nat, filterNum: nat)

  /** A line of the early initialisation. Indices and errors go by the names in their macros. */
  datatype Code =
    | DeclareFilters(size: nat)
    | SetFilter(index: nat)
    | HandleInit(indexer: string)
    | GpioInit(indexer: string, output: bool)
    | ReturnOnError(error: string)

  datatype ErrorDef = ErrorDef(name: string, offset: nat)

  /** The generated files: two enumerations with their sizes, the errors, and the initialisation. */
  datatype Files = Files(
    handles: seq<string>, deviceNum: nat, gpios: seq<string>, gpioNum: nat, errors: seq<ErrorDef>, init: seq<Code>)

  const FIRST_OFFSET := 90

  /** The names whose initialisation errors the core header defines already. */
  const RESERVED := ["PRIOR", "HANDLE", "CSP_CAN", "CSP_I2C", "CSP", "CSP_ROUTE"]

  function Capital(c: char): char {
    if 'a' <= c <= 'z' then (c as int - 32) as char else c
  }

  function Upper(s: string): string {
    if s == "" then "" else [Capital(s[0])] + Upper(s[1..])
  }

  const CAPITALS := "ABCDEFGHIJKLMNOPQRSTUVWXYZ"

  /** Letters become capitals, one by one, and everything else stays. */
  lemma {:induction false} UpperIs(s: string, i: nat)
    requires i < |s|
    ensures |Upper(s)| == |s|
    ensures Upper(s)[i] == if 'a' <= s[i] <= 'z' then CAPITALS[s[i] as int - 'a' as int] else s[i]
  {
    if |s| > 1 {
      UpperIs(s[1..], if i > 0 then i - 1 else 0);
    }
  }

  // ---------- What each loop collects ----------

  function Last(l: seq<Iface>): Iface
    requires l != []
  {
    l[|l| - 1]
  }

  function Front(l: seq<Iface>): seq<Iface>
    requires l != []
  {
    l[..|l| - 1]
  }

  function One(name: string, b: bool): seq<string> {
    if b then [Upper(name)] else []
  }

  function HandleNames(l: seq<Iface>): seq<string> {
    if l == [] then [] else HandleNames(Front(l)) + One(Last(l).name, Last(l).ready && Last(l).kind != Gpio)
  }

  function GpioNames(l: seq<Iface>): seq<string> {
    if l == [] then [] else GpioNames(Front(l)) + One(Last(l).name, Last(l).ready && Last(l).kind == Gpio)
  }

  function ReadyNames(l: seq<Iface>): seq<string> {
    if l == [] then [] else ReadyNames(Front(l)) + One(Last(l).name, Last(l).ready)
  }

  function ReadyCans(l: seq<Iface>): nat {
    if l == [] then 0 else ReadyCans(Front(l)) + if Last(l).ready && Last(l).kind == Can then 1 else 0
  }

  predicate Proper(iface: Iface) {
    iface.ready && iface.kind == Gpio ==> iface.direction != Other
  }

  predicate Directed(l: seq<Iface>) {
    forall i :: 0 <= i < |l| ==> Proper(l[i])
  }

  /** The first pin without a direction, or the number of interfaces. */
  function FirstBad(l: seq<Iface>): (i: nat)
    ensures i <= |l|
  {
    if l == [] then 0 else if Proper(l[0]) then 1 + FirstBad(l[1..]) else 0
  }

  lemma {:induction false} FirstBadIs(l: seq<Iface>, i: nat)
    requires i < |l| && !Proper(l[i]) && forall k :: 0 <= k < i ==> Proper(l[k])
    ensures FirstBad(l) == i
  {
    if i > 0 {
      assert forall k :: 0 <= k < i - 1 ==> l[1..][k] == l[k + 1];
      FirstBadIs(l[1..], i - 1);
    }
  }

  function Errors(names: seq<string>): seq<ErrorDef> {
    seq(|names|, i requires 0 <= i < |names| => ErrorDef(names[i], FIRST_OFFSET + i))
  }

  /** The lines for one interface. */
  function CodeFor(iface: Iface): seq<Code> {
    if !iface.ready then []
    else match iface.kind
         case Gpio => [GpioInit(Upper(iface.name), iface.direction == Out), ReturnOnError(Upper(iface.name))]
         case Can => CanCode(iface)
         case _ => [HandleInit(Upper(iface.name))]
  }

  function CanCode(iface: Iface): seq<Code> {
    [DeclareFilters(iface.filterNum)] + seq(Min(iface.filters, iface.filterNum), i requires i >= 0 => SetFilter(i)) +
    [HandleInit(Upper(iface.name))]
  }

  function Init(l: seq<Iface>): seq<Code> {
    if l == [] then [] else Init(Front(l)) + CodeFor(Last(l))
  }

  // ---------- The generator ----------

  lemma Snoc(l: seq<Iface>, i: nat)
    requires i < |l|
    ensures Front(l[..i + 1]) == l[..i] && Last(l[..i + 1]) == l[i]
  {
  }

  method GetGeneralSrlNamearr(interfaces: seq<Iface>) returns (names: seq<string>)
    ensures names == HandleNames(interfaces)
  {
    names := [];
    for i := 0 to |interfaces|
      invariant names == HandleNames(interfaces[..i])
    {
      Snoc(interfaces, i);
      if interfaces[i].kind != Gpio {
        if interfaces[i].ready {
          names := names + [Upper(interfaces[i].name)];
        }
      }
    }
    assert interfaces[..|interfaces|] == interfaces;
  }

  method GetGpioNum(interfaces: seq<Iface>) returns (num: nat)
    ensures num == |GpioNames(interfaces)|
  {
    num := 0;
    for i := 0 to |interfaces|
      invariant num == |GpioNames(interfaces[..i])|
    {
      Snoc(interfaces, i);
      if interfaces[i].kind == Gpio && interfaces[i].ready {
        num := num + 1;
      }
    }
    assert interfaces[..|interfaces|] == interfaces;
  }

  method WriteGpioEnum(interfaces: seq<Iface>) returns (names: seq<string>)
    ensures names == GpioNames(interfaces)
  {
    names := [];
    for i := 0 to |interfaces|
      invariant names == GpioNames(interfaces[..i])
    {
      Snoc(interfaces, i);
      if interfaces[i].kind == Gpio && interfaces[i].ready {
        names := names + [Upper(interfaces[i].name)];
      }
    }
    assert interfaces[..|interfaces|] == interfaces;
  }

  method WriteErrors(interfaces: seq<Iface>) returns (errors: seq<ErrorDef>)
    ensures errors == Errors(ReadyNames(interfaces))
  {
    errors := [];
    var offset := FIRST_OFFSET;
    for i := 0 to |interfaces|
      invariant errors == Errors(ReadyNames(interfaces[..i])) && offset == FIRST_OFFSET + |errors|
    {
      Snoc(interfaces, i);
      if interfaces[i].ready {
        errors := errors + [ErrorDef(Upper(interfaces[i].name), offset)];
        offset := offset + 1;
      }
    }
    assert interfaces[..|interfaces|] == interfaces;
  }

  method WriteCanHandleInit(iface: Iface) returns (code: seq<Code>)
    ensures code == CanCode(iface)
  {
    code := [DeclareFilters(iface.filterNum)];
    var i := 0;
    while i < iface.filters
      invariant i <= Min(iface.filters, iface.filterNum)
      invariant code == [DeclareFilters(iface.filterNum)] + seq(i, k requires k >= 0 => SetFilter(k))
    {
      if i >= iface.filterNum {
        break;
      }
      code := code + [SetFilter(i)];
      i := i + 1;
    }
    code := code + [HandleInit(Upper(iface.name))];
  }

  method WriteInit(iface: Iface) returns (r: Result<seq<Code>>)
    ensures r == if Proper(iface) then Ok(CodeFor(iface)) else BadDirection([])
  {
    var name := Upper(iface.name);
    if !iface.ready {
      return Ok([]);
    } else if iface.kind == Can {
      var code := WriteCanHandleInit(iface);
      return Ok(code);
    } else if iface.kind == Gpio {
      if iface.direction == In {
        return Ok([GpioInit(name, false), ReturnOnError(name)]);
      } else if iface.direction == Out {
        return Ok([GpioInit(name, true), ReturnOnError(name)]);
      } else {
        return BadDirection([]);
      }
    } else {
      return Ok([HandleInit(name)]);
    }
  }

  ghost predicate Written(l: seq<Iface>, i: nat, code: seq<Code>)
    requires i <= |l|
  {
    code == Init(l[..i]) && Directed(l[..i])
  }

  lemma DirectedStep(l: seq<Iface>, i: nat)
    requires i < |l| && Directed(l[..i]) && Proper(l[i])
    ensures Directed(l[..i + 1])
  {
    var more := l[..i + 1];
    forall k | 0 <= k < |more| ensures Proper(more[k]) {
      assert k < i ==> more[k] == l[..i][k];
    }
  }

  lemma WriteStep(l: seq<Iface>, i: nat, code: seq<Code>)
    requires i < |l| && Written(l, i, code)
    ensures Proper(l[i]) ==> Written(l, i + 1, code + CodeFor(l[i]))
    ensures !Proper(l[i]) ==> !Directed(l) && FirstBad(l) == i && code == Init(l[..i])
  {
    if !Proper(l[i]) {
      forall k | 0 <= k < i ensures Proper(l[k]) {
        assert l[..i][k] == l[k];
      }
      FirstBadIs(l, i);
    }
    if Proper(l[i]) {
      DirectedStep(l, i);
      InitStep(l, i);
    }
  }

  lemma InitStep(l: seq<Iface>, i: nat)
    requires i < |l|
    ensures Init(l[..i + 1]) == Init(l[..i]) + CodeFor(l[i])
  {
    Snoc(l, i);
  }

  lemma AllWritten(l: seq<Iface>, code: seq<Code>)
    requires Written(l, |l|, code)
    ensures code == Init(l) && Directed(l)
  {
    assert l[..|l|] == l;
  }

  method WriteEarlyInit(interfaces: seq<Iface>) returns (r: Result<seq<Code>>)
    ensures r == if Directed(interfaces) then Ok(Init(interfaces)) else BadDirection(Init(interfaces[..FirstBad(interfaces)]))
  {
    var code := [];
    for i := 0 to |interfaces|
      invariant Written(interfaces, i, code)
    {
      WriteStep(interfaces, i, code);
      var lines := WriteInit(interfaces[i]);
      if lines.Ok? {
        code := code + lines.value;
      } else {
        return BadDirection(code);
      }
    }
    AllWritten(interfaces, code);
    r := Ok(code);
  }

  /** All the files, from one list, unless there are too many interfaces or CSP nodes. The size of the
      handle table is written as the last index and one.
   */
  method Generate(interfaces: seq<Iface>, maxHandle: nat, cspNodes: nat, maxCsp: nat) returns (r: Result<Files>)
    ensures r == Generated(interfaces, maxHandle, cspNodes, maxCsp)
  {
    var names := GetGeneralSrlNamearr(interfaces);
    if |names| > maxHandle {
      return TooMany;
    }
    if cspNodes + 1 > maxCsp {
      return TooManyCsp;
    }
    var deviceNum := 0;
    if names != [] {
      deviceNum := IndexOf(names, names[|names| - 1]) + 1;
    }
    var gpioNum := GetGpioNum(interfaces);
    var gpios := WriteGpioEnum(interfaces);
    var errors := WriteErrors(interfaces);
    var init := WriteEarlyInit(interfaces);
    match init {
      case Ok(code) => r := Ok(Files(names, deviceNum, gpios, gpioNum, errors, code));
      case TooMany => r := TooMany;
      case TooManyCsp => r := TooManyCsp;
      case BadDirection(code) => r := BadDirection(Files(names, deviceNum, gpios, gpioNum, errors, code));
    }
  }

  function FilesOf(interfaces: seq<Iface>, init: seq<Code>): Files {
    var names := HandleNames(interfaces);
    Files(names, if names == [] then 0 else IndexOf(names, names[|names| - 1]) + 1,
          GpioNames(interfaces), |GpioNames(interfaces)|, Errors(ReadyNames(interfaces)), init)
  }

  function Generated(interfaces: seq<Iface>, maxHandle: nat, cspNodes: nat, maxCsp: nat): Result<Files> {
    if |HandleNames(interfaces)| > maxHandle then TooMany
    else if cspNodes + 1 > maxCsp then TooManyCsp
    else if !Directed(interfaces) then BadDirection(FilesOf(interfaces, Init(interfaces[..FirstBad(interfaces)])))
    else Ok(FilesOf(interfaces, Init(interfaces)))
  }

  /** How many interfaces are initialised through a handle. */
  function ReadyHandles(l: seq<Iface>): nat {
    if l == [] then 0 else ReadyHandles(l[..|l| - 1]) + if l[|l| - 1].ready && l[|l| - 1].kind != Gpio then 1 else 0
  }

  /** Every ready pin is an input or an output. */
  predicate AllDirected(l: seq<Iface>) {
    forall i :: 0 <= i < |l| && l[i].ready && l[i].kind == Gpio ==> l[i].direction == In || l[i].direction == Out
  }

  lemma {:induction false} HandlesCounted(l: seq<Iface>)
    ensures |HandleNames(l)| == ReadyHandles(l)
  {
    if l != [] {
      HandlesCounted(Front(l));
    }
  }

  /** Nothing is written exactly for more handles than the table has or CSP nodes that leave no place for
      the board's own; and the initialisation is broken off exactly if, within these limits, a ready pin
      is neither input nor output.
   */
  lemma RefusedExactly(l: seq<Iface>, maxHandle: nat, cspNodes: nat, maxCsp: nat)
    ensures var r := Generated(l, maxHandle, cspNodes, maxCsp);
            && (r == TooMany <==> ReadyHandles(l) > maxHandle)
            && (r == TooManyCsp <==> ReadyHandles(l) <= maxHandle && cspNodes >= maxCsp)
            && (r.BadDirection? <==> ReadyHandles(l) <= maxHandle && cspNodes < maxCsp && !AllDirected(l))
  {
    HandlesCounted(l);
    assert Directed(l) <==> AllDirected(l) by {
      assert forall i :: 0 <= i < |l| ==> (Proper(l[i]) <==> !(l[i].ready && l[i].kind == Gpio && l[i].direction == Other));
    }
  }

  // ---------- Do the files fit together? ----------

  function HandleOf(c: Code): seq<string> {
    match c case HandleInit(name) => [name] case _ => []
  }

  function GpioOf(c: Code): seq<string> {
    match c case GpioInit(name, _) => [name] case _ => []
  }

  function ErrorOf(c: Code): seq<string> {
    match c case ReturnOnError(name) => [name] case _ => []
  }

  function HandleInits(code: seq<Code>): seq<string> {
    if code == [] then [] else HandleOf(code[0]) + HandleInits(code[1..])
  }

  function GpioInits(code: seq<Code>): seq<string> {
    if code == [] then [] else GpioOf(code[0]) + GpioInits(code[1..])
  }

  function Returned(code: seq<Code>): seq<string> {
    if code == [] then [] else ErrorOf(code[0]) + Returned(code[1..])
  }

  function Declared(code: seq<Code>): nat {
    if code == [] then 0 else (if code[0].DeclareFilters? then 1 else 0) + Declared(code[1..])
  }

  lemma {:induction false} HandlesJoin(a: seq<Code>, b: seq<Code>)
    ensures HandleInits(a + b) == HandleInits(a) + HandleInits(b)
  {
    if a == [] {
      assert a + b == b;
    } else {
      assert (a + b)[1..] == a[1..] + b;
      HandlesJoin(a[1..], b);
    }
  }

  lemma {:induction false} GpiosJoin(a: seq<Code>, b: seq<Code>)
    ensures GpioInits(a + b) == GpioInits(a) + GpioInits(b)
  {
    if a == [] {
      assert a + b == b;
    } else {
      assert (a + b)[1..] == a[1..] + b;
      GpiosJoin(a[1..], b);
    }
  }

  lemma {:induction false} ErrorsJoin(a: seq<Code>, b: seq<Code>)
    ensures Returned(a + b) == Returned(a) + Returned(b)
    ensures Declared(a + b) == Declared(a) + Declared(b)
  {
    if a == [] {
      assert a + b == b;
    } else {
      assert (a + b)[1..] == a[1..] + b;
      ErrorsJoin(a[1..], b);
    }
  }

  lemma CodeJoins(a: seq<Code>, b: seq<Code>)
    ensures HandleInits(a + b) == HandleInits(a) + HandleInits(b) && GpioInits(a + b) == GpioInits(a) + GpioInits(b)
    ensures Returned(a + b) == Returned(a) + Returned(b) && Declared(a + b) == Declared(a) + Declared(b)
  {
    HandlesJoin(a, b);
    GpiosJoin(a, b);
    ErrorsJoin(a, b);
  }

  lemma {:induction false} SettingsOnly(code: seq<Code>)
    requires forall i :: 0 <= i < |code| ==> code[i].SetFilter?
    ensures HandleInits(code) == [] && GpioInits(code) == [] && Returned(code) == [] && Declared(code) == 0
  {
    if code != [] {
      SettingsOnly(code[1..]);
    }
  }

  lemma Single(c: Code)
    ensures HandleInits([c]) == if c.HandleInit? then [c.indexer] else []
    ensures GpioInits([c]) == if c.GpioInit? then [c.indexer] else []
    ensures Returned([c]) == if c.ReturnOnError? then [c.error] else []
    ensures Declared([c]) == if c.DeclareFilters? then 1 else 0
  {
    assert [c][1..] == [];
  }

  lemma CanCodeIs(iface: Iface)
    ensures var code := CanCode(iface);
            HandleInits(code) == [Upper(iface.name)] && GpioInits(code) == [] && Returned(code) == [] && Declared(code) == 1
  {
    var declaration, handle := DeclareFilters(iface.filterNum), HandleInit(Upper(iface.name));
    var settings: seq<Code> := seq(Min(iface.filters, iface.filterNum), i requires i >= 0 => SetFilter(i));
    SettingsOnly(settings);
    Single(declaration);
    Single(handle);
    CodeJoins([declaration], settings);
    CodeJoins([declaration] + settings, [handle]);
  }

  lemma CodeForIs(iface: Iface)
    ensures var code := CodeFor(iface);
            && HandleInits(code) == One(iface.name, iface.ready && iface.kind != Gpio)
            && GpioInits(code) == One(iface.name, iface.ready && iface.kind == Gpio)
            && Returned(code) == One(iface.name, iface.ready && iface.kind == Gpio)
            && Declared(code) == if iface.ready && iface.kind == Can then 1 else 0
  {
    var name := Upper(iface.name);
    if iface.ready && iface.kind == Can {
      CanCodeIs(iface);
    } else if iface.ready && iface.kind == Gpio {
      var call, check := GpioInit(name, iface.direction == Out), ReturnOnError(name);
      Single(call);
      Single(check);
      CodeJoins([call], [check]);
      assert CodeFor(iface) == [call] + [check];
    } else if iface.ready {
      Single(HandleInit(name));
    }
  }

  /** The initialisation calls for exactly the interfaces the header counts, in the same order. */
  lemma {:induction false} InitIs(l: seq<Iface>)
    ensures HandleInits(Init(l)) == HandleNames(l) && GpioInits(Init(l)) == Returned(Init(l)) == GpioNames(l)
    ensures Declared(Init(l)) == ReadyCans(l)
  {
    if l != [] {
      InitIs(Front(l));
      CodeForIs(Last(l));
      CodeJoins(Init(Front(l)), CodeFor(Last(l)));
    }
  }

  /** A ready pin is initialised as an output exactly if the configuration says so, and what is
      initialised so is such a pin.
   */
  predicate Driven(l: seq<Iface>, name: string, output: bool) {
    exists i :: 0 <= i < |l| && DrivenBy(l[i], name, output)
  }

  predicate DrivenBy(iface: Iface, name: string, output: bool) {
    && iface.kind == Gpio && iface.ready && Upper(iface.name) == name
    && (if output then iface.direction == Out else iface.direction == In)
  }

  lemma CodeDrives(iface: Iface, name: string, output: bool)
    requires Proper(iface)
    ensures GpioInit(name, output) in CodeFor(iface) <==> DrivenBy(iface, name, output)
  {
    if iface.ready && iface.kind == Can {
      var code := CanCode(iface);
      assert forall k :: 0 <= k < |code| ==> !code[k].GpioInit?;
    }
  }

  lemma DrivenLast(l: seq<Iface>, name: string, output: bool)
    requires l != []
    ensures Driven(l, name, output) <==> Driven(Front(l), name, output) || DrivenBy(Last(l), name, output)
  {
    var front := Front(l);
    if Driven(front, name, output) {
      var i :| 0 <= i < |front| && DrivenBy(front[i], name, output);
      assert DrivenBy(l[i], name, output);
    }
    if Driven(l, name, output) {
      var i :| 0 <= i < |l| && DrivenBy(l[i], name, output);
      assert i < |front| ==> DrivenBy(front[i], name, output);
    }
  }

  lemma DirectedFront(l: seq<Iface>)
    requires Directed(l) && l != []
    ensures Directed(Front(l)) && Proper(Last(l))
  {
  }

  lemma {:induction false} PinsDriven(l: seq<Iface>, name: string, output: bool)
    requires Directed(l)
    ensures GpioInit(name, output) in Init(l) <==> Driven(l, name, output)
  {
    if l != [] {
      DirectedFront(l);
      PinsDriven(Front(l), name, output);
      CodeDrives(Last(l), name, output);
      DrivenLast(l, name, output);
    }
  }

  lemma {:induction false} SubNames(l: seq<Iface>)
    ensures forall name :: name in HandleNames(l) || name in GpioNames(l) ==> name in ReadyNames(l)
  {
    if l != [] {
      SubNames(Front(l));
    }
  }

  lemma {:induction false} SubDistinct(l: seq<Iface>)
    requires Distinct(ReadyNames(l))
    ensures Distinct(HandleNames(l)) && Distinct(GpioNames(l))
  {
    if l != [] {
      var name := Upper(Last(l).name);
      if Last(l).ready {
        DistinctSnoc(ReadyNames(Front(l)), name);
      } else {
        assert ReadyNames(l) == ReadyNames(Front(l));
      }
      SubDistinct(Front(l));
      SubNames(Front(l));
      DistinctSnoc(HandleNames(Front(l)), name);
      DistinctSnoc(GpioNames(Front(l)), name);
    }
  }

  lemma {:induction false} PlaceIs(names: seq<string>, i: nat)
    requires Distinct(names) && i < |names|
    ensures IndexOf(names, names[i]) == i
  {
    assert IndexOf(names, names[i]) < |names|;
  }

  /** Are the names used those of the table, one after the other from index 0 on? */
  ghost predicate InTurn(used: seq<string>, table: seq<string>) {
    |used| == |table| && forall i :: 0 <= i < |used| ==> IndexOf(table, used[i]) == i
  }

  lemma EachInTurn(names: seq<string>)
    requires Distinct(names)
    ensures InTurn(names, names)
    ensures names != [] ==> IndexOf(names, names[|names| - 1]) + 1 == |names|
  {
    forall i | 0 <= i < |names| ensures IndexOf(names, names[i]) == i {
      PlaceIs(names, i);
    }
  }

  /** Is every error in the list defined, and are the offsets distinct and counting up from 90? */
  ghost predicate Defined(used: seq<string>, errors: seq<ErrorDef>) {
    && (forall name :: name in used ==> exists i :: 0 <= i < |errors| && errors[i].name == name)
    && (forall i :: 0 <= i < |errors| ==> errors[i].offset == 90 + i)
    && (forall i, j :: 0 <= i < j < |errors| ==> errors[i].name != errors[j].name)
  }

  lemma ErrorsDefined(l: seq<Iface>)
    requires Distinct(ReadyNames(l))
    ensures Defined(GpioNames(l), Errors(ReadyNames(l)))
  {
    SubNames(l);
    var errors := Errors(ReadyNames(l));
    forall name | name in GpioNames(l) ensures exists i :: 0 <= i < |errors| && errors[i].name == name {
      var i := IndexOf(ReadyNames(l), name);
      assert errors[i].name == name;
    }
  }

  /** With distinct names, the handles are initialised one after the other from index 0 on, each
      once and within the table, and so are the pins; and every error returned is defined.
   */
  lemma InitialisesOnce(l: seq<Iface>, maxHandle: nat, cspNodes: nat, maxCsp: nat)
    requires Generated(l, maxHandle, cspNodes, maxCsp).Ok? && Distinct(ReadyNames(l))
    ensures var f := Generated(l, maxHandle, cspNodes, maxCsp).value;
            && InTurn(HandleInits(f.init), f.handles) && f.deviceNum == |f.handles| <= maxHandle
            && InTurn(GpioInits(f.init), f.gpios) && f.gpioNum == |f.gpios|
            && Defined(Returned(f.init), f.errors)
  {
    InitIs(l);
    SubDistinct(l);
    EachInTurn(HandleNames(l));
    EachInTurn(GpioNames(l));
    ErrorsDefined(l);
  }

  /** Do the files declare every name once? */
  ghost predicate Consistent(f: Files) {
    && Distinct(f.handles) && Distinct(f.gpios) && Declared(f.init) <= 1
    && (forall i, j :: 0 <= i < j < |f.errors| ==> f.errors[i].name != f.errors[j].name)
    && (forall i :: 0 <= i < |f.errors| ==> f.errors[i].name !in RESERVED)
  }

  /** They do exactly if the upper-case names of the ready interfaces are distinct and not taken by
      the core's own errors, and at most one of the interfaces is a CAN bus: each of these declares
      an array of the same name.
   */
  lemma ConsistentExactly(l: seq<Iface>, maxHandle: nat, cspNodes: nat, maxCsp: nat)
    requires Generated(l, maxHandle, cspNodes, maxCsp).Ok?
    ensures Consistent(Generated(l, maxHandle, cspNodes, maxCsp).value) <==>
              && Distinct(ReadyNames(l)) && ReadyCans(l) <= 1
              && forall i :: 0 <= i < |ReadyNames(l)| ==> ReadyNames(l)[i] !in RESERVED
  {
    var f := Generated(l, maxHandle, cspNodes, maxCsp).value;
    InitIs(l);
    if Distinct(ReadyNames(l)) {
      SubDistinct(l);
    }
    assert |f.errors| == |ReadyNames(l)| && forall i :: 0 <= i < |f.errors| ==> f.errors[i].name == ReadyNames(l)[i];
  }

  /** Two CAN buses, whatever their names, make the initialisation declare its filters twice. */
  lemma TwoCansClash(a: string, b: string)
    ensures var l := [Iface(Can, true, a, In, 0, 0), Iface(Can, true, b, In, 0, 0)];
            Generated(l, 20, 0, 32).Ok? && !Consistent(Generated(l, 20, 0, 32).value)
  {
    var l := [Iface(Can, true, a, In, 0, 0), Iface(Can, true, b, In, 0, 0)];
    var one := [l[0]];
    assert Front(l) == one && Front(one) == [];
    assert ReadyCans(one) == 1 && |HandleNames(one)| == 1;
    assert ReadyCans(l) == 2 && |HandleNames(l)| == 2;
    ConsistentExactly(l, 20, 0, 32);
  }

  /** All filters a CAN interface asks for are set exactly if as many are listed. */
  lemma FiltersSetExactly(iface: Iface)
    ensures (forall i: nat :: i < iface.filterNum ==> SetFilter(i) in CanCode(iface)) <==> iface.filters >= iface.filterNum
    ensures forall i: nat :: SetFilter(i) in CanCode(iface) ==> i < iface.filterNum
  {
    var n := Min(iface.filters, iface.filterNum);
    var code := CanCode(iface);
    forall i | 0 <= i < n ensures SetFilter(i) in code {
      assert code[i + 1] == SetFilter(i);
    }
    forall i: nat | SetFilter(i) in code ensures i < n {
      var k :| 0 <= k < |code| && code[k] == SetFilter(i);
      assert 0 < k <= n;
    }
    if iface.filters < iface.filterNum {
      assert SetFilter(n) !in code;
    }
  }
}
