/** The seed catalog that the store hands out before anything was saved (constants.tsx). */
module Seed {
  import opened Types

  const InitialSectors: seq<Sector> := [
    Sector("1", "Cozinha", "🍳"),
    Sector("2", "Bar", "🍹"),
    Sector("3", "Salão", "🍽️"),
    Sector("4", "Estoque", "📦")
  ]

  const InitialEmployees: seq<Employee> := [
    Employee("101", "João Silva", "1"),
    Employee("102", "Maria Santos", "1"),
    Employee("103", "Carlos Oliveira", "2"),
    Employee("104", "Ana Costa", "3")
  ]

  const InitialTasks: seq<Task> := [
    // Kitchen opening
    Task("k-o-1", "1", Abertura, "Verificar temperatura das geladeiras"),
    Task("k-o-2", "1", Abertura, "Limpar bancadas de preparo"),
    Task("k-o-3", "1", Abertura, "Organizar mise-en-place"),
    Task("k-o-4", "1", Abertura, "Checar validade dos insumos"),
    // Kitchen closing
    Task("k-c-1", "1", Fechamento, "Higienizar fogão e coifas"),
    Task("k-c-2", "1", Fechamento, "Retirar lixo e lavar baldes"),
    Task("k-c-3", "1", Fechamento, "Desligar equipamentos não essenciais"),
    // Bar opening
    Task("b-o-1", "2", Abertura, "Preparar guarnições de frutas"),
    Task("b-o-2", "2", Abertura, "Repor gelo e bebidas")
  ]

  /** Every seed task belongs to a seed sector. */
  lemma SeedTasksHaveSectors()
    ensures forall t :: t in InitialTasks ==> exists s :: s in InitialSectors && s.id == t.sectorId
  {
    assert InitialSectors[0].id == "1" && InitialSectors[1].id == "2";
  }
}
