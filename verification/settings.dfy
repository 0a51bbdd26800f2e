/**
 * The settings page's form state: sections of named fields, and the single
 * update every input makes.
 */
module Settings {

  /** A field's value: the page holds strings, booleans and numbers. */
  datatype Value = Str(s: string) | Flag(b: bool) | Number(n: int)

  /** Section name to field name to value. */
  type SettingsState = map<string, map<string, Value>>

  /** The sections the page opens with, each as an empty record here: their contents are data. */
  const SectionNames: set<string> := {"profile", "notifications", "preferences", "coding"}

  /** `prev[section]` spread into a new record: a missing section spreads as nothing. */
  function SectionOf(s: SettingsState, section: string): (r: map<string, Value>)
    ensures section in s ==> r == s[section]
    ensures section !in s ==> r == map[]
  {
    if section in s then s[section] else map[]
  }

  /** `handleInputChange`: the one field set to `value`; every other field and section as it was. */
  function HandleInputChange(s: SettingsState, section: string, field: string, value: Value): (r: SettingsState)
    ensures section in r && field in r[section] && r[section][field] == value
    ensures r.Keys == s.Keys + {section}
    ensures r[section].Keys == SectionOf(s, section).Keys + {field}
    ensures forall f :: f in r[section] && f != field ==> r[section][f] == SectionOf(s, section)[f]
    ensures forall sec :: sec in r && sec != section ==> r[sec] == s[sec]
  {
    s[section := SectionOf(s, section)[field := value]]
  }

  /** Entering the same value twice is the same as entering it once. */
  lemma ChangeIdempotent(s: SettingsState, section: string, field: string, value: Value)
    ensures
      var once := HandleInputChange(s, section, field, value);
      HandleInputChange(once, section, field, value) == once
  {
    var once := HandleInputChange(s, section, field, value);
    var twice := HandleInputChange(once, section, field, value);
    assert twice[section] == once[section];
  }

  /** Changes to two different fields do not interfere: either order gives the same settings. */
  lemma ChangesCommute(s: SettingsState, sec1: string, f1: string, v1: Value, sec2: string, f2: string, v2: Value)
    requires sec1 != sec2 || f1 != f2
    ensures
      HandleInputChange(HandleInputChange(s, sec1, f1, v1), sec2, f2, v2)
      == HandleInputChange(HandleInputChange(s, sec2, f2, v2), sec1, f1, v1)
  {
    if sec1 == sec2 {
      var m := SectionOf(s, sec1);
      assert m[f1 := v1][f2 := v2] == m[f2 := v2][f1 := v1];
    } else {
      assert s[sec1 := SectionOf(s, sec1)[f1 := v1]][sec2 := SectionOf(s, sec2)[f2 := v2]]
          == s[sec2 := SectionOf(s, sec2)[f2 := v2]][sec1 := SectionOf(s, sec1)[f1 := v1]];
    }
  }

  /** A later change to the same field overrides an earlier one. */
  lemma LastChangeWins(s: SettingsState, section: string, field: string, v1: Value, v2: Value)
    ensures
      HandleInputChange(HandleInputChange(s, section, field, v1), section, field, v2)
      == HandleInputChange(s, section, field, v2)
  {
    var a := HandleInputChange(HandleInputChange(s, section, field, v1), section, field, v2);
    var b := HandleInputChange(s, section, field, v2);
    assert a[section] == b[section];
  }

  /** Inputs only ever add sections, so the four sections the page opens with stay. */
  lemma SectionsStay(s: SettingsState, section: string, field: string, value: Value)
    requires SectionNames <= s.Keys
    ensures SectionNames <= HandleInputChange(s, section, field, value).Keys
  {
  }
}
