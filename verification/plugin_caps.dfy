/** What a plugin manifest grants, the capability list a WASM plugin
    advertises, and the environment variables it gets to see
    (crates/opencrust-plugins/src/runtime.rs). */
module PluginPermissions {

  /** The `permissions` part of a plugin manifest. */
  datatype Permissions = Permissions(
    filesystem: bool,
    readPaths: seq<string>,
    writePaths: seq<string>,
    network: seq<string>,
    envVars: seq<string>)

  datatype Capability =
    | Filesystem(readPaths: seq<string>, writePaths: seq<string>)
    | Network(domains: seq<string>)
    | EnvVars(names: seq<string>)

  /** Position of each kind in the advertised list. */
  function Rank(c: Capability): nat {
    match c
    case Filesystem(_, _) => 0
    case Network(_) => 1
    case EnvVars(_) => 2
  }

  /** `WasmRuntime::capabilities`. */
  function Capabilities(p: Permissions): (caps: seq<Capability>)
    ensures Filesystem(p.readPaths, p.writePaths) in caps <==> p.filesystem
    ensures Network(p.network) in caps <==> p.network != []
    ensures EnvVars(p.envVars) in caps <==> p.envVars != []
    ensures forall c :: c in caps ==>
              c == Filesystem(p.readPaths, p.writePaths) || c == Network(p.network) || c == EnvVars(p.envVars)
    ensures forall i, j :: 0 <= i < j < |caps| ==> Rank(caps[i]) < Rank(caps[j])
  {
    var fs := if p.filesystem then [Filesystem(p.readPaths, p.writePaths)] else [];
    var net := if p.network != [] then [Network(p.network)] else [];
    var env := if p.envVars != [] then [EnvVars(p.envVars)] else [];
    fs + net + env
  }

  /** A manifest that grants nothing advertises nothing, and each grant adds
      exactly one entry. */
  lemma CapabilitiesCount(p: Permissions)
    ensures |Capabilities(p)| == (if p.filesystem then 1 else 0) + (if p.network != [] then 1 else 0)
                                 + (if p.envVars != [] then 1 else 0)
  {
  }

  /** The environment loop of `execute`: of the caller's variables, in their
      iteration order, only the allowlisted names reach the guest. */
  function EnvFilter(env: seq<(string, string)>, allowed: seq<string>): (r: seq<(string, string)>)
    ensures |r| <= |env|
    ensures forall kv :: kv in r <==> kv in env && kv.0 in allowed
  {
    if env == [] then []
    else (if env[0].0 in allowed then [env[0]] else []) + EnvFilter(env[1..], allowed)
  }

  /** Filtering keeps the order: it distributes over concatenation. */
  lemma {:induction false} EnvFilterAppend(a: seq<(string, string)>, b: seq<(string, string)>, allowed: seq<string>)
    ensures EnvFilter(a + b, allowed) == EnvFilter(a, allowed) + EnvFilter(b, allowed)
  {
    if a == [] {
      assert a + b == b;
    } else {
      assert (a + b)[1..] == a[1..] + b;
      EnvFilterAppend(a[1..], b, allowed);
    }
  }

  /** An empty allowlist passes nothing; filtering twice is filtering once. */
  lemma {:induction false} EnvFilterIdempotent(env: seq<(string, string)>, allowed: seq<string>)
    ensures EnvFilter([], allowed) == [] && EnvFilter(env, []) == []
    ensures EnvFilter(EnvFilter(env, allowed), allowed) == EnvFilter(env, allowed)
  {
    if env != [] {
      EnvFilterIdempotent(env[1..], allowed);
      var head := if env[0].0 in allowed then [env[0]] else [];
      EnvFilterAppend(head, EnvFilter(env[1..], allowed), allowed);
    }
  }
}
