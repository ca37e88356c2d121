/** The settings screen of `src/components/ConfiguracoesView.tsx`: the
    settings record, its starting values, and the field update the inputs
    make. Saving only writes to the console. */
module ConfiguracoesView {
  import opened Text

  /** A setting's value: the inputs store text, switches and numbers; a
      number comes from `parseInt` and may be NaN. */
  datatype ConfigValue = TextValue(s: string) | Flag(b: bool) | Number(n: JsNumber)

  /** One section of the settings, field name to value. */
  type Section = map<string, ConfigValue>

  /** The settings, section name to section. */
  type Configuracoes = map<string, Section>

  const InitialSettings: Configuracoes := map[
    "restaurante" := map[
      "nome" := TextValue("Restaurante Exemplo"),
      "endereco" := TextValue("Rua das Flores, 123"),
      "telefone" := TextValue("(11) 99999-9999"),
      "email" := TextValue("contato@restaurante.com"),
      "cnpj" := TextValue("12.345.678/0001-90")],
    "sistema" := map[
      "notificacoesSonoras" := Flag(true),
      "impressaoAutomatica" := Flag(false),
      "tempoLimiteAtendimento" := Number(Num(30)),
      "percentualTaxa" := Number(Num(10))],
    "aparencia" := map[
      "tema" := TextValue("claro"),
      "idioma" := TextValue("pt-BR"),
      "mostraLogotipos" := Flag(true)]]

  /** The three sections the screen starts with, and the fields of each. */
  lemma InitialSettingsSpec()
    ensures InitialSettings.Keys == {"restaurante", "sistema", "aparencia"}
    ensures InitialSettings["restaurante"].Keys == {"nome", "endereco", "telefone", "email", "cnpj"}
    ensures InitialSettings["sistema"].Keys ==
      {"notificacoesSonoras", "impressaoAutomatica", "tempoLimiteAtendimento", "percentualTaxa"}
    ensures InitialSettings["aparencia"].Keys == {"tema", "idioma", "mostraLogotipos"}
  {
  }

  /** `{ ...prev, [section]: { ...prev[section], [field]: value } }`. Spreading
      a section that does not exist spreads nothing, so the section is
      created with the one field. */
  function InputChange(prev: Configuracoes, section: string, field: string, value: ConfigValue): Configuracoes
  {
    var current := if section in prev then prev[section] else map[];
    prev[section := current[field := value]]
  }

  /** After the change the field holds the value; the other fields of the
      section and every other section are as they were; no field or section
      is lost; and making the same change again changes nothing. */
  lemma InputChangeSpec(prev: Configuracoes, section: string, field: string, value: ConfigValue)
    ensures var next := InputChange(prev, section, field, value);
      section in next && field in next[section] && next[section][field] == value
    ensures var next := InputChange(prev, section, field, value);
      next.Keys == prev.Keys + {section}
      && forall s :: s in prev && s != section ==> next[s] == prev[s]
    ensures var next := InputChange(prev, section, field, value);
      section in prev ==>
        next[section].Keys == prev[section].Keys + {field}
        && forall f :: f in prev[section] && f != field ==> next[section][f] == prev[section][f]
    ensures var next := InputChange(prev, section, field, value);
      section !in prev ==> next[section] == map[field := value]
    ensures var next := InputChange(prev, section, field, value);
      InputChange(next, section, field, value) == next
  {
    var next := InputChange(prev, section, field, value);
    assert next[section][field := value] == next[section];
    assert next[section := next[section]] == next;
  }

  /** Changes to two different fields commute. */
  lemma InputChangesCommute(prev: Configuracoes, s1: string, f1: string, v1: ConfigValue,
                            s2: string, f2: string, v2: ConfigValue)
    requires s1 != s2 || f1 != f2
    ensures InputChange(InputChange(prev, s1, f1, v1), s2, f2, v2)
      == InputChange(InputChange(prev, s2, f2, v2), s1, f1, v1)
  {
    if s1 == s2 {
      SameSectionCommute(prev, s1, f1, v1, f2, v2);
    } else {
      OtherSectionsCommute(prev, s1, f1, v1, s2, f2, v2);
    }
  }

  lemma SameSectionCommute(prev: Configuracoes, section: string, f1: string, v1: ConfigValue,
                           f2: string, v2: ConfigValue)
    requires f1 != f2
    ensures InputChange(InputChange(prev, section, f1, v1), section, f2, v2)
      == InputChange(InputChange(prev, section, f2, v2), section, f1, v1)
  {
    var current := if section in prev then prev[section] else map[];
    assert current[f1 := v1][f2 := v2] == current[f2 := v2][f1 := v1];
  }

  lemma OtherSectionsCommute(prev: Configuracoes, s1: string, f1: string, v1: ConfigValue,
                             s2: string, f2: string, v2: ConfigValue)
    requires s1 != s2
    ensures InputChange(InputChange(prev, s1, f1, v1), s2, f2, v2)
      == InputChange(InputChange(prev, s2, f2, v2), s1, f1, v1)
  {
    var a := InputChange(InputChange(prev, s1, f1, v1), s2, f2, v2);
    var b := InputChange(InputChange(prev, s2, f2, v2), s1, f1, v1);
    assert a.Keys == b.Keys;
    forall s | s in a ensures a[s] == b[s] {
    }
  }

  /** What the two numeric inputs pass on: `parseInt(e.target.value)`. */
  function NumberInput(text: string): ConfigValue
  {
    Number(ParseDecimal(text))
  }

  /** A cleared numeric input stores NaN, and an integer typed in decimal
      is stored as that integer. */
  lemma NumberInputSpec(n: int)
    ensures NumberInput("") == Number(NaN)
    ensures NumberInput(IntToString(n)) == Number(Num(n))
  {
    ParseDecimalOfIntToString(n);
  }

  /** The screen's state. */
  class SettingsScreen {
    var configuracoes: Configuracoes

    constructor()
      ensures configuracoes == InitialSettings
    {
      configuracoes := InitialSettings;
    }

    /** `handleInputChange`. */
    method HandleInputChange(section: string, field: string, value: ConfigValue)
      modifies this
      ensures configuracoes == InputChange(old(configuracoes), section, field, value)
    {
      var current: Section := if section in configuracoes then configuracoes[section] else map[];
      configuracoes := configuracoes[section := current[field := value]];
    }

    /** `handleSave`: it logs the settings and changes nothing. */
    method HandleSave()
      ensures configuracoes == old(configuracoes)
    {
    }
  }
}
