/**
 * The encapsulation exercise: a `Galleta` (cookie) holds one value that its constructor
 * stores as given and that `cambiar_valor` replaces only with a value strictly above 20.
 */
module Encapsulamiento {
  import opened Wrappers

  /** The message printed when a new value is refused. */
  const Refusal: string := "El nuevo valor no puede ser menor a 20"

  /** The bound a new value must exceed. */
  const Threshold: int := 20

  /** Whether `cambiar_valor` takes a new value: strictly greater than 20, so 20 itself is refused. */
  predicate Accepts(nuevoValor: int) {
    nuevoValor > Threshold
  }

  class Galleta {
    var valor: int

    /** `__init__`: the value is stored without any check. */
    constructor (valor: int)
      ensures this.valor == valor
    {
      this.valor := valor;
    }

    /** `obtener_valor`: the current value; nothing changes. */
    method ObtenerValor() returns (v: int)
      ensures v == valor
    {
      v := valor;
    }

    /**
     * `cambiar_valor`: the value becomes `nuevoValor` when that is above 20; otherwise it stays
     * and the refusal message is printed.
     */
    method CambiarValor(nuevoValor: int) returns (printed: Option<string>)
      modifies this
      ensures Accepts(nuevoValor) ==> valor == nuevoValor && printed == None
      ensures !Accepts(nuevoValor) ==> valor == old(valor) && printed == Some(Refusal)
    {
      if nuevoValor > 20 {
        valor := nuevoValor;
        printed := None;
      } else {
        printed := Some(Refusal);
      }
    }
  }

  /**
   * The script: a cookie made with 10 (accepted, though below the bound), read, changed to 25,
   * read again.
   */
  method Demo() returns (before: int, after: int)
    ensures before == 10 && after == 25
  {
    var galleta := new Galleta(10);
    before := galleta.ObtenerValor();
    var _ := galleta.CambiarValor(25);
    after := galleta.ObtenerValor();
  }

  /** The value after a sequence of `cambiar_valor` calls: the last accepted value, or the initial one. */
  function ValueAfter(initial: int, changes: seq<int>): int {
    if changes == [] then initial
    else if Accepts(changes[|changes| - 1]) then changes[|changes| - 1]
    else ValueAfter(initial, changes[..|changes| - 1])
  }

  /**
   * Once any change has been accepted, the value is above 20 for good: only the constructor can
   * put a value of 20 or less in the cookie.
   */
  lemma {:induction false} ValueAfterAboveThreshold(initial: int, changes: seq<int>)
    ensures ValueAfter(initial, changes) == initial || ValueAfter(initial, changes) > Threshold
    ensures (exists i :: 0 <= i < |changes| && Accepts(changes[i])) ==> ValueAfter(initial, changes) > Threshold
  {
    if changes != [] {
      var init := changes[..|changes| - 1];
      ValueAfterAboveThreshold(initial, init);
      if !Accepts(changes[|changes| - 1]) {
        forall i | 0 <= i < |changes| && Accepts(changes[i])
          ensures 0 <= i < |init| && Accepts(init[i])
        {
        }
      }
    }
  }
}
