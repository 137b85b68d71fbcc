/** The contact record: five public properties with default initialisers. */
module ContatoModel {
  import opened NetText

  /**
   * `Contato`: the identifier and four strings.  `Contato()` is the freshly
   * constructed object: Id 0 and every string empty.
   */
  datatype Contato = Contato(
    id: Int32 := 0,
    nome: string := "",
    email: string := "",
    telefone: string := "",
    ddd: string := "")

  /** A new Contato has Id 0 and empty strings in all four text fields. */
  lemma DefaultContato()
    ensures Contato().id == 0
    ensures Contato().nome == [] && Contato().email == []
    ensures Contato().telefone == [] && Contato().ddd == []
  {
  }
}
