/** The new-table form of `src/components/MesaCadastroModal.tsx`: two text
    fields, the duplicate-number guard, and the `onMesaAdd` and
    `onOpenChange` callbacks, recorded in order as events. The alert shown
    for a duplicate is not modelled. */
module MesaCadastroModal {
  import opened Wrappers
  import opened Text
  import opened Types
  import Seqs

  /** `Omit<Mesa, 'id'>` as the form builds it: both numbers come from
      `parseInt` and may be NaN. */
  datatype NovaMesa = NovaMesa(numero: JsNumber, capacidade: JsNumber, status: MesaStatus)

  datatype CadastroEvent = MesaAdded(mesa: NovaMesa) | OpenChange(open: bool)

  /** `mesas.some(mesa => mesa.numero === numeroMesa)`: NaN equals nothing. */
  predicate MesaExiste(mesas: seq<Mesa>, numero: JsNumber)
  {
    exists i :: 0 <= i < |mesas| && Num(mesas[i].numero) == numero
  }

  /** The table a submission adds, or none when its number is taken. */
  function SubmitOutcome(mesas: seq<Mesa>, numero: string, capacidade: string): Option<NovaMesa>
  {
    var numeroMesa := ParseDecimal(numero);
    if MesaExiste(mesas, numeroMesa) then None
    else Some(NovaMesa(numeroMesa, ParseDecimal(capacidade), Livre))
  }

  /** A submission is refused exactly when some table already has the
      parsed number; otherwise it adds a free table with the parsed number
      and capacity, whose number no table has. */
  lemma SubmitOutcomeSpec(mesas: seq<Mesa>, numero: string, capacidade: string)
    ensures SubmitOutcome(mesas, numero, capacidade).None? <==>
      exists i :: 0 <= i < |mesas| && Num(mesas[i].numero) == ParseDecimal(numero)
    ensures SubmitOutcome(mesas, numero, capacidade).Some? ==>
      var m := SubmitOutcome(mesas, numero, capacidade).value;
      m.numero == ParseDecimal(numero) && m.capacidade == ParseDecimal(capacidade) && m.status == Livre
      && forall i :: 0 <= i < |mesas| ==> Num(mesas[i].numero) != m.numero
  {
  }

  /** A number that does not parse (such as the empty field) is never taken. */
  lemma UnparsedNumberNeverTaken(mesas: seq<Mesa>, numero: string, capacidade: string)
    requires ParseDecimal(numero) == NaN
    ensures SubmitOutcome(mesas, numero, capacidade).Some?
  {
  }

  function Numeros(mesas: seq<Mesa>): (r: seq<int>)
    ensures |r| == |mesas| && forall i :: 0 <= i < |mesas| ==> r[i] == mesas[i].numero
  {
    seq(|mesas|, i requires 0 <= i < |mesas| => mesas[i].numero)
  }

  /** Adding what this form accepts keeps the table numbers distinct. */
  lemma AddKeepsNumbersDistinct(mesas: seq<Mesa>, numero: string, capacidade: string, novo: Mesa)
    requires Seqs.NoDuplicates(Numeros(mesas))
    requires SubmitOutcome(mesas, numero, capacidade).Some?
    requires Num(novo.numero) == SubmitOutcome(mesas, numero, capacidade).value.numero
    ensures Seqs.NoDuplicates(Numeros(mesas + [novo]))
  {
    var all := Numeros(mesas + [novo]);
    forall i, j | 0 <= i < j < |all| ensures all[i] != all[j] {
      if j == |mesas| {
        assert Num(mesas[i].numero) != Num(novo.numero);
      } else {
        assert all[i] == Numeros(mesas)[i] && all[j] == Numeros(mesas)[j];
      }
    }
  }

  class CadastroForm {
    var numero: string
    var capacidade: string
    /** The callbacks fired so far, oldest first. */
    var events: seq<CadastroEvent>

    constructor()
      ensures numero == "" && capacidade == "" && events == []
    {
      numero := "";
      capacidade := "";
      events := [];
    }

    /** Typing in the number field. */
    method SetNumero(text: string)
      modifies this
      ensures numero == text && capacidade == old(capacidade) && events == old(events)
    {
      numero := text;
    }

    /** Typing in the capacity field. */
    method SetCapacidade(text: string)
      modifies this
      ensures capacidade == text && numero == old(numero) && events == old(events)
    {
      capacidade := text;
    }

    /** `handleSubmit`: a taken number leaves everything as it is; otherwise
        the table is added once, the form is emptied and the dialog asked to
        close. */
    method HandleSubmit(mesas: seq<Mesa>)
      modifies this
      ensures SubmitOutcome(mesas, old(numero), old(capacidade)).None? ==>
        numero == old(numero) && capacidade == old(capacidade) && events == old(events)
      ensures SubmitOutcome(mesas, old(numero), old(capacidade)).Some? ==>
        events == old(events) + [MesaAdded(SubmitOutcome(mesas, old(numero), old(capacidade)).value), OpenChange(false)]
        && numero == "" && capacidade == ""
    {
      var numeroMesa := ParseDecimal(numero);
      var capacidadeMesa := ParseDecimal(capacidade);
      var mesaExiste := MesaExiste(mesas, numeroMesa);
      if mesaExiste {
        return;
      }
      events := events + [MesaAdded(NovaMesa(numeroMesa, capacidadeMesa, Livre))];
      numero := "";
      capacidade := "";
      events := events + [OpenChange(false)];
    }
  }
}
