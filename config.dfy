/**
 * The lookups of aura/config.py over an already parsed credentials file. The
 * file is an ordered list of sections, each a map from option name to value;
 * reading and parsing the file is not part of this model.
 */
module Config {
  import opened Wrappers
  import opened Exceptions

  datatype Section = Section(name: string, options: map<string, string>)

  /** The sections in file order, as config.sections() lists them. */
  type Parsed = seq<Section>

  const LoginSection: string := "login"

  predicate HasSection(config: Parsed, name: string)
  {
    exists i :: 0 <= i < |config| && config[i].name == name
  }

  /** config[name]: the first section of that name. */
  function FindSection(config: Parsed, name: string): (r: Option<Section>)
    ensures r.Some? <==> HasSection(config, name)
    ensures r.Some? ==> exists i :: 0 <= i < |config| && config[i] == r.value && r.value.name == name
                                    && forall j :: 0 <= j < i ==> config[j].name != name
  {
    if config == [] then None
    else if config[0].name == name then Some(config[0])
    else
      var r := FindSection(config[1..], name);
      assert r.Some? ==> exists i :: 1 <= i < |config| && config[i] == r.value;
      r
  }

  /** load_config: a missing file, a file configparser cannot parse (parsed is
      None) and a file without a [login] section are each a ConfigError. */
  function LoadConfig(fileExists: bool, parsed: Option<Parsed>): (r: Result<Parsed>)
    ensures r.Ok? <==> fileExists && parsed.Some? && HasSection(parsed.value, LoginSection)
    ensures r.Ok? ==> r.value == parsed.value
    ensures r.Err? ==> r.failure == Aura(ConfigError)
  {
    if !fileExists then Err(Aura(ConfigError))
    else match parsed
      case None => Err(Aura(ConfigError))
      case Some(config) =>
        if HasSection(config, LoginSection) then Ok(config) else Err(Aura(ConfigError))
  }

  datatype Credentials = Credentials(email: string, password: string)

  /** get_login_credentials: email and password of [login]; a missing section or a
      missing key is a ConfigError. */
  function GetLoginCredentials(config: Parsed): (r: Result<Credentials>)
    ensures r.Ok? <==> FindSection(config, LoginSection).Some?
                       && "email" in FindSection(config, LoginSection).value.options
                       && "password" in FindSection(config, LoginSection).value.options
    ensures r.Ok? ==> var login := FindSection(config, LoginSection).value;
                      r.value == Credentials(login.options["email"], login.options["password"])
    ensures r.Err? ==> r.failure == Aura(ConfigError)
  {
    match FindSection(config, LoginSection)
    case None => Err(Aura(ConfigError))
    case Some(login) =>
      if "email" in login.options && "password" in login.options
      then Ok(Credentials(login.options["email"], login.options["password"]))
      else Err(Aura(ConfigError))
  }

  datatype FrameConfig = FrameConfig(frameId: string, filePath: string)

  /** get_frame_config: frame_id and file_path of the named section; a missing
      section or a missing key is a ConfigError. */
  function GetFrameConfig(config: Parsed, frameName: string): (r: Result<FrameConfig>)
    ensures !HasSection(config, frameName) ==> r == Err(Aura(ConfigError))
    ensures r.Ok? <==> HasSection(config, frameName)
                       && "frame_id" in FindSection(config, frameName).value.options
                       && "file_path" in FindSection(config, frameName).value.options
    ensures r.Ok? ==> var frame := FindSection(config, frameName).value;
                      r.value == FrameConfig(frame.options["frame_id"], frame.options["file_path"])
    ensures r.Err? ==> r.failure == Aura(ConfigError)
  {
    match FindSection(config, frameName)
    case None => Err(Aura(ConfigError))
    case Some(frame) =>
      if "frame_id" in frame.options && "file_path" in frame.options
      then Ok(FrameConfig(frame.options["frame_id"], frame.options["file_path"]))
      else Err(Aura(ConfigError))
  }

  /** get_frame_names: the section names other than login, in file order. */
  function GetFrameNames(config: Parsed): (r: seq<string>)
    ensures LoginSection !in r
    ensures forall n :: n in r <==> n != LoginSection && HasSection(config, n)
    ensures |r| <= |config|
  {
    if config == [] then []
    else
      var rest := GetFrameNames(config[1..]);
      assert forall n :: HasSection(config, n) <==> n == config[0].name || HasSection(config[1..], n) by {
        forall n ensures HasSection(config, n) ==> n == config[0].name || HasSection(config[1..], n) {
          if HasSection(config, n) && n != config[0].name {
            var i :| 0 <= i < |config| && config[i].name == n;
            assert config[1..][i - 1].name == n;
          }
        }
        forall n ensures HasSection(config[1..], n) ==> HasSection(config, n) {
          if HasSection(config[1..], n) {
            var i :| 0 <= i < |config[1..]| && config[1..][i].name == n;
            assert config[i + 1].name == n;
          }
        }
      }
      if config[0].name != LoginSection then [config[0].name] + rest else rest
  }

  /** The names of two consecutive runs of sections are the names of each, in
      order: filtering keeps the relative order of the frames. */
  lemma {:induction false} FrameNamesAppend(a: Parsed, b: Parsed)
    ensures GetFrameNames(a + b) == GetFrameNames(a) + GetFrameNames(b)
  {
    if a == [] {
      assert a + b == b;
    } else {
      assert (a + b)[0] == a[0];
      assert (a + b)[1..] == a[1..] + b;
      FrameNamesAppend(a[1..], b);
    }
  }

  /** A frame section contributes its name, a login section nothing. */
  lemma FrameNamesOfOne(s: Section)
    ensures GetFrameNames([s]) == if s.name == LoginSection then [] else [s.name]
  {
    assert [s][1..] == [];
  }

  /** Every login section is removed: the result is as long as the file has frame
      sections. */
  lemma {:induction false} FrameNamesCount(config: Parsed)
    ensures |GetFrameNames(config)| == |config| - LoginCount(config)
  {
    if config != [] {
      FrameNamesCount(config[1..]);
    }
  }

  function LoginCount(config: Parsed): nat
  {
    if config == [] then 0
    else (if config[0].name == LoginSection then 1 else 0) + LoginCount(config[1..])
  }

  /** A configuration load_config accepts always yields credentials unless the
      [login] section lacks one of its two keys. */
  lemma LoadedConfigHasLogin(fileExists: bool, parsed: Option<Parsed>)
    requires LoadConfig(fileExists, parsed).Ok?
    ensures var config := LoadConfig(fileExists, parsed).value;
      GetLoginCredentials(config).Err? <==>
        var login := FindSection(config, LoginSection).value;
        "email" !in login.options || "password" !in login.options
  {
  }
}
