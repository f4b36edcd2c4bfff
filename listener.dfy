/**
 * The `listen` directive parser (ParseListener, ProtoByName, CheckPort,
 * IsPortInRange):
 *
 *   listen = ( address ":" port | port | path | address ":" port "-" port )
 *            [ ":" protocol ] [ "_vip" ]
 *
 * A fatal configuration error (sphFatal, which ends the process) is a
 * `Fatal` result. Host name resolution is a parameter: `resolve` yields the
 * address in network order, or None where the strict lookup is fatal.
 */
module Listener {
  import opened Wire
  import opened Options

  /** SPHINXAPI_PORT. */
  const SPHINXAPI_PORT: Int32 := 9312
  /** htonl(INADDR_ANY). */
  const INADDR_ANY: Dword := 0

  datatype Proto = Sphinx | MySQL41 | Http | Replication

  /** ListenerDesc_t. */
  datatype ListenerDesc = ListenerDesc(
    proto: Proto,
    unixPath: string,
    ip: Dword,
    port: Int32,
    portsCount: Int32,
    vip: bool)

  datatype Parsed = Ok(desc: ListenerDesc) | Fatal(msg: string)

  /** The description ParseListener starts from. */
  const Defaults: ListenerDesc := ListenerDesc(Sphinx, "", INADDR_ANY, SPHINXAPI_PORT, 0, false)

  // -----------------------------------------------------------------------
  // Ports.
  // -----------------------------------------------------------------------

  /** CheckPort's test: a TCP port is not 0 and fits in 16 bits. */
  function IsPortInRange(port: int): (r: bool)
    ensures r <==> 1 <= port <= 65535
  {
    0 < port <= 0xFFFF
  }

  // -----------------------------------------------------------------------
  // Splitting, keeping every field (empty ones included).
  // -----------------------------------------------------------------------

  function Split(s: string, sep: char): (parts: seq<string>)
    ensures |parts| >= 1
    decreases |s|
  {
    if |s| == 0 then [""]
    else if s[0] == sep then [""] + Split(s[1..], sep)
    else var t := Split(s[1..], sep); [[s[0]] + t[0]] + t[1..]
  }

  /** The fields joined back with the separator. */
  function Join(parts: seq<string>, sep: char): string
    requires |parts| >= 1
  {
    if |parts| == 1 then parts[0] else parts[0] + [sep] + Join(parts[1..], sep)
  }

  /** Splitting loses nothing: the fields join back to the input, and no
      field holds the separator. */
  lemma {:induction false} SplitJoin(s: string, sep: char)
    ensures Join(Split(s, sep), sep) == s
    ensures forall i :: 0 <= i < |Split(s, sep)| ==> sep !in Split(s, sep)[i]
    decreases |s|
  {
    if |s| == 0 {
    } else if s[0] == sep {
      SplitJoin(s[1..], sep);
      var t := Split(s[1..], sep);
      assert Split(s, sep) == [""] + t;
      assert Split(s, sep)[1..] == t;
      assert s == [sep] + s[1..];
      forall i | 0 <= i < |Split(s, sep)| ensures sep !in Split(s, sep)[i] {
        if i > 0 {
          assert Split(s, sep)[i] == t[i - 1];
        }
      }
    } else {
      SplitJoin(s[1..], sep);
      var t := Split(s[1..], sep);
      var parts := Split(s, sep);
      assert parts == [[s[0]] + t[0]] + t[1..];
      if |t| > 1 {
        assert parts[1..] == t[1..];
        assert Join(t, sep) == t[0] + [sep] + Join(t[1..], sep);
      }
      assert s == [s[0]] + s[1..];
      forall i | 0 <= i < |parts| ensures sep !in parts[i] {
        if i > 0 {
          assert parts[i] == t[i];
        }
      }
    }
  }

  /** A string without the separator is one field. */
  lemma {:induction false} SplitNoSep(s: string, sep: char)
    requires sep !in s
    ensures Split(s, sep) == [s]
    decreases |s|
  {
    if |s| > 0 {
      assert sep !in s[1..] by {
        forall i | 0 <= i < |s[1..]| ensures s[1..][i] != sep {
          assert s[1..][i] == s[i + 1];
        }
      }
      SplitNoSep(s[1..], sep);
      assert s == [s[0]] + s[1..];
    }
  }

  /** A first field without the separator comes off whole. */
  lemma {:induction false} SplitCons(a: string, sep: char, rest: string)
    requires sep !in a
    ensures Split(a + [sep] + rest, sep) == [a] + Split(rest, sep)
    decreases |a|
  {
    if a == [] {
      assert a + [sep] + rest == [sep] + rest;
      assert ([sep] + rest)[1..] == rest;
    } else {
      var s := a + [sep] + rest;
      assert s[0] == a[0] && s[1..] == a[1..] + [sep] + rest;
      assert sep !in a[1..] by {
        forall i | 0 <= i < |a[1..]| ensures a[1..][i] != sep {
          assert a[1..][i] == a[i + 1];
        }
      }
      SplitCons(a[1..], sep, rest);
      assert [a[0]] + a[1..] == a;
    }
  }

  // -----------------------------------------------------------------------
  // C library helpers, C locale.
  // -----------------------------------------------------------------------

  predicate IsDigit(c: char)
  {
    '0' <= c <= '9'
  }

  predicate IsSpace(c: char)
  {
    c == ' ' || c == '\t' || c == '\n' || c == '\U{0B}' || c == '\U{0C}' || c == '\r'
  }

  predicate AllDigits(s: string)
  {
    forall i :: 0 <= i < |s| ==> IsDigit(s[i])
  }

  /** tolower on ASCII letters; every other character is kept. */
  function ToLower(s: string): (r: string)
    ensures |r| == |s|
    ensures forall i :: 0 <= i < |s| ==> r[i] == (if 'A' <= s[i] <= 'Z' then (s[i] as int + 32) as char else s[i])
  {
    seq(|s|, i requires 0 <= i < |s| => if 'A' <= s[i] <= 'Z' then (s[i] as int + 32) as char else s[i])
  }

  /** The longest prefix of decimal digits. */
  function LeadingDigits(s: string): (d: string)
    ensures AllDigits(d) && d <= s
    ensures |d| < |s| ==> !IsDigit(s[|d|])
  {
    if s == [] || !IsDigit(s[0]) then [] else [s[0]] + LeadingDigits(s[1..])
  }

  /** The value of a string of decimal digits, most significant first. */
  function DecimalValue(d: string): (v: nat)
    requires AllDigits(d)
  {
    if d == [] then 0 else DecimalValue(d[..|d| - 1]) * 10 + (d[|d| - 1] as int - '0' as int)
  }

  function Pow10(n: nat): (p: nat)
    ensures p >= 1
  {
    if n == 0 then 1 else 10 * Pow10(n - 1)
  }

  lemma {:induction false} DecimalValueBound(d: string)
    requires AllDigits(d)
    ensures DecimalValue(d) < Pow10(|d|)
  {
    if d != [] {
      DecimalValueBound(d[..|d| - 1]);
    }
  }

  /** strtol(s, NULL, 10) before its range check: leading white space, an
      optional sign, then the leading digits. */
  function StrtolValue(s: string): int
  {
    if s != [] && IsSpace(s[0]) then StrtolValue(s[1..])
    else if s != [] && s[0] == '-' then 0 - DecimalValue(LeadingDigits(s[1..]))
    else if s != [] && s[0] == '+' then DecimalValue(LeadingDigits(s[1..]))
    else DecimalValue(LeadingDigits(s))
  }

  /** atol on a 64-bit `long`: strtol saturates at the type's bounds. */
  function Atol(s: string): (v: Int64)
    ensures -0x8000_0000_0000_0000 < StrtolValue(s) < 0x7FFF_FFFF_FFFF_FFFF ==> v == StrtolValue(s)
  {
    var v := StrtolValue(s);
    if v < -0x8000_0000_0000_0000 then -0x8000_0000_0000_0000
    else if v > 0x7FFF_FFFF_FFFF_FFFF then 0x7FFF_FFFF_FFFF_FFFF
    else v
  }

  /** atoi: atol narrowed to `int`. */
  function Atoi(s: string): (v: Int32)
    ensures -0x8000_0000 <= StrtolValue(s) < 0x8000_0000 ==> v == StrtolValue(s)
  {
    ToInt32(Atol(s))
  }

  /** Up to five digits read as their decimal value. */
  lemma ShortDigitsValue(s: string)
    requires AllDigits(s) && |s| <= 5
    ensures Atol(s) == DecimalValue(s) < 100000
  {
    DecimalValueBound(s);
    Pow10Mono(|s|, 5);
    assert Pow10(5) == 100000 by {
      assert Pow10(1) == 10;
      assert Pow10(2) == 100;
      assert Pow10(3) == 1000;
      assert Pow10(4) == 10000;
    }
    StrtolDigits(s);
  }

  lemma {:induction false} Pow10Mono(m: nat, n: nat)
    requires m <= n
    ensures Pow10(m) <= Pow10(n)
  {
    if m < n {
      Pow10Mono(m, n - 1);
    }
  }

  /** strtol of a string of digits is its decimal value. */
  lemma StrtolDigits(s: string)
    requires AllDigits(s)
    ensures StrtolValue(s) == DecimalValue(s)
  {
    if s != [] {
      assert IsDigit(s[0]);
      LeadingAllDigits(s);
    }
  }

  lemma {:induction false} LeadingAllDigits(s: string)
    requires AllDigits(s)
    ensures LeadingDigits(s) == s
  {
    if s != [] {
      assert AllDigits(s[1..]) by {
        forall i | 0 <= i < |s[1..]| ensures IsDigit(s[1..][i]) {
          assert s[1..][i] == s[i + 1];
        }
      }
      LeadingAllDigits(s[1..]);
      assert s == [s[0]] + s[1..];
    }
  }

  // -----------------------------------------------------------------------
  // Protocol names.
  // -----------------------------------------------------------------------

  function ProtoName(p: Proto): (n: string)
    ensures '_' !in n && n != []
  {
    match p
    case Sphinx => "sphinx"
    case MySQL41 => "mysql41"
    case Http => "http"
    case Replication => "replication"
  }

  /** SimpleProtoByName: a lower-case name without the `_vip` suffix. */
  function SimpleProtoByName(name: string): (r: Option<Proto>)
    ensures r.Some? ==> name == ProtoName(r.value)
    ensures r.None? ==> forall p :: name != ProtoName(p)
  {
    if name == "sphinx" then Some(Sphinx)
    else if name == "mysql41" then Some(MySQL41)
    else if name == "http" then Some(Http)
    else if name == "replication" then Some(Replication)
    else
      NotAProtoName(name);
      None
  }

  lemma NotAProtoName(name: string)
    requires name != "sphinx" && name != "mysql41" && name != "http" && name != "replication"
    ensures forall p :: name != ProtoName(p)
  {
    forall p ensures name != ProtoName(p) {
      match p
      case Sphinx =>
      case MySQL41 =>
      case Http =>
      case Replication =>
    }
  }

  /** ProtoByName: lower-case the name, split it at `_`; the first field is
      the protocol, and a second field may only be `vip`. It changes only the
      protocol and may set, never clear, the VIP flag. */
  function ProtoByName(full: string, d: ListenerDesc): (r: Parsed)
    ensures r.Ok? ==> r.desc == d.(proto := r.desc.proto, vip := r.desc.vip)
    ensures r.Ok? && d.vip ==> r.desc.vip
  {
    var parts := Split(ToLower(full), '_');
    match SimpleProtoByName(parts[0])
    case None => Fatal("unknown listen protocol type")
    case Some(p) =>
      if |parts| == 1 then Ok(d.(proto := p))
      else if |parts| == 2 && parts[1] == "vip" then Ok(d.(proto := p, vip := true))
      else Fatal("unknown listen protocol type")
  }

  /** The protocol names ProtoByName accepts (after lower-casing), each with
      the protocol and the VIP flag it selects. */
  function ProtoSpec(lowered: string): Option<(Proto, bool)>
  {
    if lowered == "sphinx" then Some((Sphinx, false))
    else if lowered == "mysql41" then Some((MySQL41, false))
    else if lowered == "http" then Some((Http, false))
    else if lowered == "replication" then Some((Replication, false))
    else if lowered == "sphinx_vip" then Some((Sphinx, true))
    else if lowered == "mysql41_vip" then Some((MySQL41, true))
    else if lowered == "http_vip" then Some((Http, true))
    else if lowered == "replication_vip" then Some((Replication, true))
    else None
  }

  /** ProtoSpec lists each protocol name, plain and with `_vip`. */
  lemma ProtoSpecNames(p: Proto)
    ensures ProtoSpec(ProtoName(p)) == Some((p, false))
    ensures ProtoSpec(ProtoName(p) + "_vip") == Some((p, true))
  {
    match p
    case Sphinx => assert "sphinx" + "_vip" == "sphinx_vip";
    case MySQL41 => assert "mysql41" + "_vip" == "mysql41_vip";
    case Http => assert "http" + "_vip" == "http_vip";
    case Replication => assert "replication" + "_vip" == "replication_vip";
  }

  /** ... and nothing else. */
  lemma ProtoSpecOnlyNames(lowered: string)
    requires ProtoSpec(lowered).Some?
    ensures var (p, vip) := ProtoSpec(lowered).value;
            lowered == if vip then ProtoName(p) + "_vip" else ProtoName(p)
  {
    assert "sphinx" + "_vip" == "sphinx_vip";
    assert "mysql41" + "_vip" == "mysql41_vip";
    assert "http" + "_vip" == "http_vip";
    assert "replication" + "_vip" == "replication_vip";
  }

  /** ProtoByName accepts exactly the names ProtoSpec lists, and then sets the
      protocol and (for the suffix) the VIP flag, nothing else. */
  lemma ProtoByNameExact(full: string, d: ListenerDesc)
    ensures ProtoByName(full, d).Ok? <==> ProtoSpec(ToLower(full)).Some?
    ensures ProtoByName(full, d).Ok? ==>
              var (p, vip) := ProtoSpec(ToLower(full)).value;
              ProtoByName(full, d).desc == d.(proto := p, vip := d.vip || vip)
  {
    if ProtoSpec(ToLower(full)).Some? {
      ProtoByNameAccepts(full, d);
    } else {
      ProtoByNameRejects(full, d);
    }
  }

  lemma ProtoByNameAccepts(full: string, d: ListenerDesc)
    requires ProtoSpec(ToLower(full)).Some?
    ensures ProtoByName(full, d).Ok?
    ensures var (p, vip) := ProtoSpec(ToLower(full)).value;
            ProtoByName(full, d).desc == d.(proto := p, vip := d.vip || vip)
  {
    var lowered := ToLower(full);
    var parts := Split(lowered, '_');
    var (q, vip) := ProtoSpec(lowered).value;
    ProtoSpecOnlyNames(lowered);
    ProtoVipForm(lowered, q);
    assert parts[0] == ProtoName(q);
    var r := SimpleProtoByName(parts[0]);
    assert r.Some?;
    ProtoNameInjective(r.value, q);
  }

  lemma ProtoByNameRejects(full: string, d: ListenerDesc)
    requires ProtoSpec(ToLower(full)).None?
    ensures ProtoByName(full, d).Fatal?
  {
    var lowered := ToLower(full);
    var parts := Split(lowered, '_');
    var r := SimpleProtoByName(parts[0]);
    if r.Some? {
      ProtoSpecNames(r.value);
      SplitJoin(lowered, '_');
      if |parts| == 2 {
        assert Join(parts, '_') == parts[0] + ['_'] + Join(parts[1..], '_');
        assert lowered != ProtoName(r.value) + "_vip";
        assert parts[1] != "vip";
      }
    }
  }

  lemma ProtoNameInjective(p: Proto, q: Proto)
    requires ProtoName(p) == ProtoName(q)
    ensures p == q
  {
  }

  /** A name that lower-cases to `<proto>` or `<proto>_vip` splits into that
      protocol name and, for the second form, `vip`. */
  lemma ProtoVipForm(lowered: string, p: Proto)
    ensures lowered == ProtoName(p) ==> Split(lowered, '_') == [ProtoName(p)]
    ensures lowered == ProtoName(p) + "_vip" ==> Split(lowered, '_') == [ProtoName(p), "vip"]
  {
    SplitNoSep(ProtoName(p), '_');
    assert ProtoName(p) + "_vip" == ProtoName(p) + ['_'] + "vip";
    SplitCons(ProtoName(p), '_', "vip");
    SplitNoSep("vip", '_');
  }

  // -----------------------------------------------------------------------
  // ParseListener.
  // -----------------------------------------------------------------------

  /** Whether the first field is read as a port number: all digits and at
      most five of them. `emptyHostIsAny` additionally asks for at least one
      digit, so that an empty first field is read as an empty host (the
      corrected reading, see EmptyHostIsAny). */
  predicate PortLike(first: string, emptyHostIsAny: bool)
  {
    AllDigits(first) && |first| <= 5 && (emptyHostIsAny ==> first != [])
  }

  /** The host:port[-end][:proto] branch, once the host is known not to be a port. */
  function ParseHostPort(parts: seq<string>, resolve: string -> Option<Dword>): Parsed
    requires 2 <= |parts| <= 3
  {
    var withProto := if |parts| == 3 then ProtoByName(parts[2], Defaults) else Ok(Defaults);
    if withProto.Fatal? then withProto
    else
      var ip := if parts[0] == [] then Some(INADDR_ANY) else resolve(parts[0]);
      if ip.None? then Fatal("failed to resolve host")
      else
        var ports := Split(parts[1], '-');
        var port := Atoi(ports[0]);
        if !IsPortInRange(port) then Fatal("port is out of range")
        else if |ports| == 2 then
          var last := Atoi(ports[1]);
          if !IsPortInRange(last) then Fatal("port is out of range")
          else if last <= port then Fatal("ports range invalid")
          else if last - port < 2 then Fatal("ports range count should be at least 2")
          else Ok(withProto.desc.(ip := ip.value, port := port, portsCount := last - port))
        else Ok(withProto.desc.(ip := ip.value, port := port))
  }

  /** What ParseListener returns for `spec`. The code as written is
      `emptyHostIsAny == false`. */
  function Parse(spec: string, resolve: string -> Option<Dword>, emptyHostIsAny: bool): (r: Parsed)
    ensures r.Ok? ==> r.desc.unixPath == [] || (r.desc.unixPath[0] == '/' && ':' !in r.desc.unixPath)
    ensures r.Ok? ==> r.desc.portsCount == 0 || r.desc.portsCount >= 2
  {
    SplitNoColon(spec);
    var parts := Split(spec, ':');
    if |parts| > 3 then Fatal("invalid listen format (too many fields)")
    else if parts[0] != [] && parts[0][0] == '/' then
      if |parts| > 2 then Fatal("invalid listen format (too many fields)")
      else if |parts| == 2 then
        match ProtoByName(parts[1], Defaults)
        case Fatal(m) => Fatal(m)
        case Ok(d) => Ok(d.(unixPath := parts[0]))
      else Ok(Defaults.(unixPath := parts[0]))
    else
      var portLike := PortLike(parts[0], emptyHostIsAny);
      var port := if portLike then ToInt32(Atol(parts[0])) else 0;
      if portLike && !IsPortInRange(port) then Fatal("port is out of range")
      else if |parts| == 1 then
        if port != 0 then Ok(Defaults.(port := port))
        else match resolve(spec)
          case None => Fatal("failed to resolve host")
          case Some(ip) => Ok(Defaults.(ip := ip))
      else if port != 0 then
        if |parts| != 2 then Fatal("invalid listen format (expected port:proto)")
        else ProtoByName(parts[1], Defaults.(port := port))
      else ParseHostPort(parts, resolve)
  }

  /** ParseListener: fills the description field by field. The first field
      is read as a port only when it has at least one digit, so an empty
      host binds every address (the code as written is `Parse(spec,
      resolve, false)`, see EmptyHostFatal). */
  method ParseListener(spec: string, resolve: string -> Option<Dword>) returns (r: Parsed)
    ensures r == Parse(spec, resolve, true)
  {
    var res := Defaults;
    var parts := Split(spec, ':');
    if |parts| > 3 {
      return Fatal("invalid listen format (too many fields)");
    }
    if parts[0] != [] && parts[0][0] == '/' {
      if |parts| > 2 {
        return Fatal("invalid listen format (too many fields)");
      }
      if |parts| == 2 {
        var withProto := ProtoByName(parts[1], res);
        if withProto.Fatal? {
          return withProto;
        }
        res := withProto.desc;
      }
      res := res.(unixPath := parts[0]);
      return Ok(res);
    }

    var part := parts[0];
    var allDigits := true;
    var i := 0;
    while i < |part| && allDigits
      invariant 0 <= i <= |part|
      invariant allDigits ==> forall k :: 0 <= k < i ==> IsDigit(part[k])
      invariant !allDigits ==> 0 < i && !IsDigit(part[i - 1])
    {
      if !IsDigit(part[i]) {
        allDigits := false;
      }
      i := i + 1;
    }
    assert allDigits <==> AllDigits(part);

    var port: Int32 := 0;
    if allDigits && |part| <= 5 && |part| != 0 {
      port := ToInt32(Atol(part));
      if !IsPortInRange(port) {
        return Fatal("port is out of range");
      }
    }

    if |parts| == 1 {
      if port != 0 {
        res := res.(port := port);
      } else {
        var ip := resolve(spec);
        if ip.None? {
          return Fatal("failed to resolve host");
        }
        res := res.(ip := ip.value);
      }
      return Ok(res);
    }

    if port != 0 {
      if |parts| != 2 {
        return Fatal("invalid listen format (expected port:proto)");
      }
      res := res.(port := port);
      return ProtoByName(parts[1], res);
    }

    assert Parse(spec, resolve, true) == ParseHostPort(parts, resolve);
    if |parts| == 3 {
      var withProto := ProtoByName(parts[2], res);
      if withProto.Fatal? {
        return withProto;
      }
      res := withProto.desc;
    }
    var ip := if parts[0] == [] then Some(INADDR_ANY) else resolve(parts[0]);
    if ip.None? {
      return Fatal("failed to resolve host");
    }
    res := res.(ip := ip.value);

    var ports := Split(parts[1], '-');
    res := res.(port := Atoi(ports[0]));
    if !IsPortInRange(res.port) {
      return Fatal("port is out of range");
    }
    if |ports| == 2 {
      var last := Atoi(ports[1]);
      if !IsPortInRange(last) {
        return Fatal("port is out of range");
      }
      if last <= res.port {
        return Fatal("ports range invalid");
      }
      if last - res.port < 2 {
        return Fatal("ports range count should be at least 2");
      }
      res := res.(portsCount := last - res.port);
    }
    return Ok(res);
  }

  // -----------------------------------------------------------------------
  // What the grammar promises.
  // -----------------------------------------------------------------------

  /** More than three colon-separated fields is fatal. */
  lemma TooManyFieldsFatal(spec: string, resolve: string -> Option<Dword>, emptyHostIsAny: bool)
    requires |Split(spec, ':')| > 3
    ensures Parse(spec, resolve, emptyHostIsAny).Fatal?
  {
  }

  /** A path is a UNIX socket with the default protocol; a path with more
      than one further field is fatal. */
  lemma UnixSocketListener(spec: string, resolve: string -> Option<Dword>, emptyHostIsAny: bool)
    requires spec != [] && spec[0] == '/'
    ensures ':' !in spec ==> Parse(spec, resolve, emptyHostIsAny) == Ok(Defaults.(unixPath := spec))
    ensures |Split(spec, ':')| > 2 ==> Parse(spec, resolve, emptyHostIsAny).Fatal?
    ensures Parse(spec, resolve, emptyHostIsAny).Ok? ==>
              var d := Parse(spec, resolve, emptyHostIsAny).desc;
              d.unixPath == Split(spec, ':')[0] && d.port == SPHINXAPI_PORT && d.portsCount == 0
  {
    SplitJoin(spec, ':');
    var parts := Split(spec, ':');
    if |parts| > 1 {
      assert Join(parts, ':') == parts[0] + [':'] + Join(parts[1..], ':');
      assert parts[0] != [];
      assert parts[0][0] == spec[0];
    } else {
      assert parts[0] == spec;
    }
    if ':' !in spec {
      SplitNoSep(spec, ':');
    }
  }

  /** A bare port of at most five digits listens on every address with the
      default protocol, and must lie in 1..65535. */
  lemma BarePort(spec: string, resolve: string -> Option<Dword>, emptyHostIsAny: bool)
    requires spec != [] && AllDigits(spec) && |spec| <= 5
    ensures Parse(spec, resolve, emptyHostIsAny).Ok? <==> 1 <= DecimalValue(spec) <= 65535
    ensures Parse(spec, resolve, emptyHostIsAny).Ok? ==>
              Parse(spec, resolve, emptyHostIsAny).desc == Defaults.(port := DecimalValue(spec))
  {
    assert ':' !in spec by {
      forall i | 0 <= i < |spec| ensures spec[i] != ':' {
        assert IsDigit(spec[i]);
      }
    }
    SplitNoSep(spec, ':');
    var parts := Split(spec, ':');
    assert parts == [spec];
    ShortDigitsValue(spec);
    assert spec[0] != '/' by {
      assert IsDigit(spec[0]);
    }
    assert PortLike(parts[0], emptyHostIsAny);
    var port := ToInt32(Atol(parts[0]));
    assert port == DecimalValue(spec);
    assert Parse(spec, resolve, emptyHostIsAny)
        == if IsPortInRange(port) then Ok(Defaults.(port := port)) else Fatal("port is out of range");
  }

  /** Whatever is accepted has a port in range and, when it is a range, at
      least two ports that all lie in range. */
  lemma AcceptedPortsInRange(spec: string, resolve: string -> Option<Dword>, emptyHostIsAny: bool)
    requires Parse(spec, resolve, emptyHostIsAny).Ok?
    requires Parse(spec, resolve, emptyHostIsAny).desc.unixPath == []
    ensures var d := Parse(spec, resolve, emptyHostIsAny).desc;
            && IsPortInRange(d.port)
            && (d.portsCount == 0 || (2 <= d.portsCount && IsPortInRange(d.port + d.portsCount)))
  {
    var parts := Split(spec, ':');
    if parts[0] != [] && parts[0][0] == '/' {
    } else if |parts| == 1 || PortLike(parts[0], emptyHostIsAny) {
      if |parts| == 2 && PortLike(parts[0], emptyHostIsAny) {
        var port := ToInt32(Atol(parts[0]));
        ProtoByNameExact(parts[1], Defaults.(port := port));
      }
    } else {
      if |parts| == 3 {
        ProtoByNameExact(parts[2], Defaults);
      }
    }
  }

  /** No colon-separated field holds a colon. */
  lemma SplitNoColon(spec: string)
    ensures ':' !in Split(spec, ':')[0]
  {
    SplitJoin(spec, ':');
  }

  /** A string holding the separator splits into at least two fields. */
  lemma SplitHasSep(s: string, sep: char)
    requires sep in s
    ensures |Split(s, sep)| >= 2
  {
    SplitJoin(s, sep);
  }

  /** A digit field is neither a path nor holds a colon. */
  lemma DigitsNoColon(s: string)
    requires AllDigits(s)
    ensures ':' !in s && (s != [] ==> s[0] != '/')
  {
    forall i | 0 <= i < |s| ensures s[i] != ':' {
      assert IsDigit(s[i]);
    }
  }

  /** A first field that reads as a port (one to five digits) must be a port
      in 1..65535 even when more fields follow (`0:sphinx` and
      `99999:mysql41` are fatal), and a valid port takes at most one further
      field, the protocol. */
  lemma PortLikeFirstFieldFatal(first: string, rest: string, resolve: string -> Option<Dword>, emptyHostIsAny: bool)
    requires AllDigits(first) && 1 <= |first| <= 5
    ensures !IsPortInRange(DecimalValue(first)) ==> Parse(first + ":" + rest, resolve, emptyHostIsAny).Fatal?
    ensures ':' in rest ==> Parse(first + ":" + rest, resolve, emptyHostIsAny).Fatal?
  {
    DigitsNoColon(first);
    SplitCons(first, ':', rest);
    assert first + ":" + rest == first + [':'] + rest;
    ShortDigitsValue(first);
    if ':' in rest {
      SplitHasSep(rest, ':');
    }
  }

  /** `port:proto` listens on every address on that port with the named
      protocol, and is accepted exactly when the protocol name is. */
  lemma PortProtoListener(first: string, proto: string, resolve: string -> Option<Dword>, emptyHostIsAny: bool)
    requires AllDigits(first) && 1 <= |first| <= 5 && IsPortInRange(DecimalValue(first))
    requires ':' !in proto
    ensures Parse(first + ":" + proto, resolve, emptyHostIsAny).Ok? <==> ProtoSpec(ToLower(proto)).Some?
    ensures Parse(first + ":" + proto, resolve, emptyHostIsAny).Ok? ==>
              var (p, vip) := ProtoSpec(ToLower(proto)).value;
              Parse(first + ":" + proto, resolve, emptyHostIsAny).desc
                == Defaults.(port := DecimalValue(first), proto := p, vip := vip)
  {
    PortProtoIsProtoByName(first, proto, resolve, emptyHostIsAny);
    ProtoByNameExact(proto, Defaults.(port := DecimalValue(first)));
  }

  lemma PortProtoIsProtoByName(first: string, proto: string, resolve: string -> Option<Dword>, emptyHostIsAny: bool)
    requires AllDigits(first) && 1 <= |first| <= 5 && IsPortInRange(DecimalValue(first))
    requires ':' !in proto
    ensures Parse(first + ":" + proto, resolve, emptyHostIsAny)
         == ProtoByName(proto, Defaults.(port := DecimalValue(first)))
  {
    DigitsNoColon(first);
    SplitTwo(first, proto);
    ShortDigitsValue(first);
    ParseTwoFieldPort(first + ":" + proto, first, proto, resolve, emptyHostIsAny);
  }

  /** Two fields without colons, joined by one, split back apart. */
  lemma SplitTwo(a: string, b: string)
    requires ':' !in a && ':' !in b
    ensures Split(a + ":" + b, ':') == [a, b]
  {
    assert a + ":" + b == a + [':'] + b;
    SplitCons(a, ':', b);
    SplitNoSep(b, ':');
  }

  /** Parse of two fields whose first reads as a port in range. */
  lemma ParseTwoFieldPort(spec: string, first: string, proto: string, resolve: string -> Option<Dword>, emptyHostIsAny: bool)
    requires Split(spec, ':') == [first, proto]
    requires first != [] && first[0] != '/' && PortLike(first, emptyHostIsAny)
    requires IsPortInRange(ToInt32(Atol(first)))
    ensures Parse(spec, resolve, emptyHostIsAny) == ProtoByName(proto, Defaults.(port := ToInt32(Atol(first))))
  {
  }

  /** The first field of `host:...` is a host name: not a path, no colon,
      not read as a port. */
  predicate HostField(host: string)
  {
    host != [] && host[0] != '/' && ':' !in host && !PortLike(host, false)
  }

  /** `host:port` listens on the resolved address of the host, and is
      accepted exactly when the host resolves and the port is in range. */
  lemma HostPortListener(host: string, port: string, resolve: string -> Option<Dword>, emptyHostIsAny: bool)
    requires HostField(host) && ':' !in port && '-' !in port
    ensures Parse(host + ":" + port, resolve, emptyHostIsAny).Ok?
        <==> resolve(host).Some? && IsPortInRange(Atoi(port))
    ensures Parse(host + ":" + port, resolve, emptyHostIsAny).Ok? ==>
              Parse(host + ":" + port, resolve, emptyHostIsAny).desc
                == Defaults.(ip := resolve(host).value, port := Atoi(port))
  {
    assert host + ":" + port == host + [':'] + port;
    SplitCons(host, ':', port);
    SplitNoSep(port, ':');
    SplitNoSep(port, '-');
    assert Parse(host + ":" + port, resolve, emptyHostIsAny) == ParseHostPort([host, port], resolve);
  }

  /** `host:port:proto` adds the protocol: accepted exactly when the host
      resolves, the port is in range and the protocol name is known. */
  lemma HostPortProtoListener(host: string, port: string, proto: string, resolve: string -> Option<Dword>, emptyHostIsAny: bool)
    requires HostField(host) && ':' !in port && '-' !in port && ':' !in proto
    ensures Parse(host + ":" + port + ":" + proto, resolve, emptyHostIsAny).Ok?
        <==> resolve(host).Some? && IsPortInRange(Atoi(port)) && ProtoSpec(ToLower(proto)).Some?
    ensures Parse(host + ":" + port + ":" + proto, resolve, emptyHostIsAny).Ok? ==>
              var (p, vip) := ProtoSpec(ToLower(proto)).value;
              Parse(host + ":" + port + ":" + proto, resolve, emptyHostIsAny).desc
                == Defaults.(ip := resolve(host).value, port := Atoi(port), proto := p, vip := vip)
  {
    var tail := port + ":" + proto;
    assert host + ":" + port + ":" + proto == host + [':'] + tail;
    assert tail == port + [':'] + proto;
    SplitCons(host, ':', tail);
    SplitCons(port, ':', proto);
    SplitNoSep(proto, ':');
    SplitNoSep(port, '-');
    assert Split(host + ":" + port + ":" + proto, ':') == [host, port, proto];
    ProtoByNameExact(proto, Defaults);
    assert Parse(host + ":" + port + ":" + proto, resolve, emptyHostIsAny)
        == ParseHostPort([host, port, proto], resolve);
  }

  /** `host:a-b` sets the port to a and the count to b - a (not b - a + 1);
      it is accepted exactly when both ends are ports and b - a is at least
      2, so `host:9000-9000` and `host:9000-9001` are fatal. */
  lemma PortRangeCount(host: string, first: string, last: string, resolve: string -> Option<Dword>, ip: Dword, emptyHostIsAny: bool)
    requires HostField(host) && resolve(host) == Some(ip)
    requires ':' !in first && '-' !in first && ':' !in last && '-' !in last
    ensures Parse(host + ":" + first + "-" + last, resolve, emptyHostIsAny).Ok?
        <==> IsPortInRange(Atoi(first)) && IsPortInRange(Atoi(last)) && Atoi(last) - Atoi(first) >= 2
    ensures Parse(host + ":" + first + "-" + last, resolve, emptyHostIsAny).Ok? ==>
              Parse(host + ":" + first + "-" + last, resolve, emptyHostIsAny).desc
                == Defaults.(ip := ip, port := Atoi(first), portsCount := Atoi(last) - Atoi(first))
  {
    var ports := first + "-" + last;
    assert ':' !in ports by {
      forall i | 0 <= i < |ports| ensures ports[i] != ':' {
        if i < |first| { assert ports[i] == first[i]; }
        else if i > |first| { assert ports[i] == last[i - |first| - 1]; }
      }
    }
    assert host + ":" + first + "-" + last == host + [':'] + ports;
    SplitCons(host, ':', ports);
    SplitNoSep(ports, ':');
    assert ports == first + ['-'] + last;
    SplitCons(first, '-', last);
    SplitNoSep(last, '-');
    var spec := host + ":" + first + "-" + last;
    assert Split(spec, ':') == [host, ports];
    assert Split(ports, '-') == [first, last];
    assert Parse(spec, resolve, emptyHostIsAny) == ParseHostPort([host, ports], resolve);
  }

  // -----------------------------------------------------------------------
  // An empty host never reaches its INADDR_ANY branch.
  // -----------------------------------------------------------------------

  /** As written, and reading sphSplit as a split that keeps an empty
      leading field, `:port` is fatal: the empty first field passes the digit
      loop vacuously, atol gives 0 and the port check fails. Under a split
      that drops empty fields, `:port` would instead be the one field `port`,
      a bare port. Either way the branch that binds an empty host to
      INADDR_ANY is never reached. */
  lemma EmptyHostFatal(rest: string, resolve: string -> Option<Dword>)
    ensures Parse(":" + rest, resolve, false).Fatal?
  {
    SplitCons([], ':', rest);
    assert [] + [':'] + rest == ":" + rest;
    assert LeadingDigits([]) == [];
  }

  /** With the port reading requiring at least one digit, `:port` binds every
      address on that port. */
  lemma EmptyHostIsAny(port: string, resolve: string -> Option<Dword>)
    requires ':' !in port && '-' !in port && IsPortInRange(Atoi(port))
    ensures Parse(":" + port, resolve, true) == Ok(Defaults.(ip := INADDR_ANY, port := Atoi(port)))
  {
    SplitCons([], ':', port);
    assert [] + [':'] + port == ":" + port;
    SplitNoSep(port, ':');
    SplitNoSep(port, '-');
  }
}
