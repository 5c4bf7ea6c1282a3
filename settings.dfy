/** The settings sanitiser: whatever the submitted options hold, the stored
    mode is "server" or "browser" and the deletion flag is 0 or 1. */
module Settings {

  /** A submitted PHP value, as far as the sanitiser looks at it. */
  datatype PhpValue =
    | Str(s: string) | Int(i: int) | Float(f: real) | Bool(b: bool) | Null
    | Array(elems: seq<PhpValue>)

  /** PHP's empty(): "", "0", 0, 0.0, false, null and the empty array. */
  predicate IsEmpty(v: PhpValue)
  {
    match v
    case Str(s) => s == "" || s == "0"
    case Int(i) => i == 0
    case Float(f) => f == 0.0
    case Bool(b) => !b
    case Null => true
    case Array(elems) => elems == []
  }

  datatype Options = Options(mode: string, deleteDataOnDeactivate: nat)

  const ModeKey: string := "mode"
  const DeleteKey: string := "delete_data_on_deactivate"

  /** ca_get_settings_defaults. */
  const Defaults: Options := Options("server", 0)

  predicate ValidMode(m: string) { m == "server" || m == "browser" }

  /** The clean options of ca_update_settings: always a known mode and a
      0/1 flag; a known mode (strictly compared) is kept, anything else
      becomes the default; the flag is 1 exactly for a present, non-empty
      value. */
  function Sanitize(input: map<string, PhpValue>): (clean: Options)
    ensures ValidMode(clean.mode)
    ensures clean.deleteDataOnDeactivate == 0 || clean.deleteDataOnDeactivate == 1
    ensures ModeKey in input && input[ModeKey].Str? && ValidMode(input[ModeKey].s) ==> clean.mode == input[ModeKey].s
    ensures !(ModeKey in input && input[ModeKey].Str? && ValidMode(input[ModeKey].s)) ==> clean.mode == "server"
    ensures clean.deleteDataOnDeactivate == 1 <==> DeleteKey in input && !IsEmpty(input[DeleteKey])
  {
    var mode :=
      if ModeKey in input && input[ModeKey].Str? && ValidMode(input[ModeKey].s) then input[ModeKey].s
      else Defaults.mode;
    var flag := if DeleteKey !in input || IsEmpty(input[DeleteKey]) then 0 else 1;
    Options(mode, flag)
  }

  /** The options as stored and read back. */
  function AsInput(o: Options): map<string, PhpValue>
  {
    map[ModeKey := Str(o.mode), DeleteKey := Int(o.deleteDataOnDeactivate)]
  }

  /** Saving the stored options again changes nothing. */
  lemma SanitizeIdempotent(input: map<string, PhpValue>)
    ensures Sanitize(AsInput(Sanitize(input))) == Sanitize(input)
  {
    var o := Sanitize(input);
    var back := AsInput(o);
    assert ModeKey != DeleteKey;
    assert back[ModeKey] == Str(o.mode);
    assert back[DeleteKey] == Int(o.deleteDataOnDeactivate);
  }

  /** A number or the string "1" given as the flag: non-zero sets it. The
      string "0", the float 0.0 and the empty array clear it, as PHP's
      empty() treats them as empty; an array holding 0 is not empty. A mode
      that is not a string falls back, as in_array compares strictly. */
  lemma FlagExamples()
    ensures Sanitize(map[DeleteKey := Str("0")]).deleteDataOnDeactivate == 0
    ensures Sanitize(map[DeleteKey := Str("1")]).deleteDataOnDeactivate == 1
    ensures Sanitize(map[DeleteKey := Str("no")]).deleteDataOnDeactivate == 1
    ensures Sanitize(map[ModeKey := Str("Browser")]).mode == "server"
    ensures Sanitize(map[DeleteKey := Float(0.0)]).deleteDataOnDeactivate == 0
    ensures Sanitize(map[DeleteKey := Array([])]).deleteDataOnDeactivate == 0
    ensures Sanitize(map[DeleteKey := Array([Int(0)])]).deleteDataOnDeactivate == 1
    ensures Sanitize(map[ModeKey := Array([Str("browser")])]).mode == "server"
  {
    assert ModeKey != DeleteKey;
    assert Str("1") != Str("0") && "1" != "0";
    assert "no" != "0" && "no" != "";
    assert "Browser" != "browser";
  }
}
