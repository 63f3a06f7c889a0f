/** The workspace-wide error type and its `Display` rendering
    (crates/opencrust-common/src/error.rs). */
module Errors {

  /** One variant per error category.  `Io` and `Serialization` wrap a
      foreign error; they carry that error's own display text. */
  datatype Error =
    | Config(msg: string)
    | Channel(msg: string)
    | Agent(msg: string)
    | Database(msg: string)
    | Plugin(msg: string)
    | Security(msg: string)
    | Media(msg: string)
    | Gateway(msg: string)
    | Skill(msg: string)
    | Mcp(msg: string)
    | Io(msg: string)
    | Serialization(msg: string)
    | NotFound(msg: string)
    | Unauthorized(msg: string)
    | Other(msg: string)

  /** `opencrust_common::Result<T>`. */
  datatype Result<+T> = Ok(value: T) | Err(error: Error)

  /** The text `to_string()` produces for an error. */
  function Display(e: Error): (r: string)
    ensures |r| >= |e.msg| && r[|r| - |e.msg|..] == e.msg
    ensures e.Other? <==> r == e.msg
  {
    match e
    case Config(s) => "configuration error: " + s
    case Channel(s) => "channel error: " + s
    case Agent(s) => "agent error: " + s
    case Database(s) => "database error: " + s
    case Plugin(s) => "plugin error: " + s
    case Security(s) => "security error: " + s
    case Media(s) => "media error: " + s
    case Gateway(s) => "gateway error: " + s
    case Skill(s) => "skill error: " + s
    case Mcp(s) => "mcp error: " + s
    case Io(s) => "io error: " + s
    case Serialization(s) => "serialization error: " + s
    case NotFound(s) => "not found: " + s
    case Unauthorized(s) => "unauthorized: " + s
    case Other(s) => s
  }

  /** The fixed text `Display` puts in front of the payload. */
  function Prefix(e: Error): (p: string)
    ensures Display(e) == p + e.msg
    ensures e.Other? <==> p == []
    ensures !e.Other? ==> |p| >= 3
  {
    match e
    case Config(_) => "configuration error: "
    case Channel(_) => "channel error: "
    case Agent(_) => "agent error: "
    case Database(_) => "database error: "
    case Plugin(_) => "plugin error: "
    case Security(_) => "security error: "
    case Media(_) => "media error: "
    case Gateway(_) => "gateway error: "
    case Skill(_) => "skill error: "
    case Mcp(_) => "mcp error: "
    case Io(_) => "io error: "
    case Serialization(_) => "serialization error: "
    case NotFound(_) => "not found: "
    case Unauthorized(_) => "unauthorized: "
    case Other(_) => ""
  }

  /** The first and third characters of each prefix. */
  function Initials(e: Error): (c: (char, char))
    requires !e.Other?
    ensures Prefix(e)[0] == c.0 && Prefix(e)[2] == c.1
  {
    match e
    case Config(_) => ('c', 'n')
    case Channel(_) => ('c', 'a')
    case Agent(_) => ('a', 'e')
    case Database(_) => ('d', 't')
    case Plugin(_) => ('p', 'u')
    case Security(_) => ('s', 'c')
    case Media(_) => ('m', 'd')
    case Gateway(_) => ('g', 't')
    case Skill(_) => ('s', 'i')
    case Mcp(_) => ('m', 'p')
    case Io(_) => ('i', ' ')
    case Serialization(_) => ('s', 'r')
    case NotFound(_) => ('n', 't')
    case Unauthorized(_) => ('u', 'a')
  }

  /** No two categories share their initials. */
  lemma InitialsInjective(e1: Error, e2: Error)
    requires !e1.Other? && !e2.Other? && Initials(e1) == Initials(e2)
    ensures Prefix(e1) == Prefix(e2)
  {
  }

  lemma SamePrefixStart(p1: string, m1: string, p2: string, m2: string)
    requires |p1| >= 3 && |p2| >= 3 && p1 + m1 == p2 + m2
    ensures p1[0] == p2[0] && p1[2] == p2[2]
  {
    assert p1[0] == (p1 + m1)[0] && p1[2] == (p1 + m1)[2];
    assert p2[0] == (p2 + m2)[0] && p2[2] == (p2 + m2)[2];
  }

  /** Apart from `Other`, the displayed text determines the error completely:
      no category's prefix starts another's, and the payload is what follows. */
  lemma DisplayInjective(e1: Error, e2: Error)
    requires !e1.Other? && !e2.Other?
    requires Display(e1) == Display(e2)
    ensures e1 == e2
  {
    var p1, p2 := Prefix(e1), Prefix(e2);
    SamePrefixStart(p1, e1.msg, p2, e2.msg);
    InitialsInjective(e1, e2);
    assert e1.msg == Display(e1)[|p1|..] == e2.msg;
    SamePrefixSameVariant(e1, e2);
  }

  lemma SamePrefixSameVariant(e1: Error, e2: Error)
    requires !e1.Other? && !e2.Other?
    requires Prefix(e1) == Prefix(e2) && e1.msg == e2.msg
    ensures e1 == e2
  {
  }

  lemma DisplayConfigExample()
    ensures Display(Config("bad yaml")) == "configuration error: bad yaml"
  {
  }

  lemma DisplayPluginExample()
    ensures Display(Plugin("timeout")) == "plugin error: timeout"
  {
  }

  lemma DisplaySecurityExample()
    ensures Display(Security("blocked")) == "security error: blocked"
  {
  }

  lemma DisplayOtherExample()
    ensures Display(Other("misc")) == "misc"
  {
  }
}
