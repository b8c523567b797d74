/** The fixed service catalog of the catalog page: an immutable, ordered snapshot. */
module CatalogData {
  import opened Seqs

  /** One offerable service. The source's `iconName` only selects an icon and is not kept. */
  datatype Service = Service(
    id: string,
    title: string,
    description: string,
    category: string,
    tags: seq<string>)

  /** The category labels the category selector offers, in menu order. */
  const ServiceCategories: seq<string> := ["Desenvolvimento", "Design", "Marketing", "Análise"]

  /** The six services, in display order. */
  const Services: seq<Service> := [
    Service("1", "Aplicativo Web React",
      "Crie aplicações web modernas e responsivas usando React e TypeScript com as melhores práticas de desenvolvimento.",
      "Desenvolvimento", ["React", "TypeScript", "Responsivo", "PWA"]),
    Service("2", "Sistema de Design",
      "Desenvolva um sistema de design completo com componentes reutilizáveis e guia de estilo consistente.",
      "Design", ["UI/UX", "Componentes", "Branding", "Tokens"]),
    Service("3", "Dashboard Analytics",
      "Construa dashboards interativos para visualização de dados e métricas de negócio em tempo real.",
      "Análise", ["Dashboard", "Métricas", "Visualização", "BI"]),
    Service("4", "Campanha Digital",
      "Planeje e execute campanhas de marketing digital com automação e análise de performance.",
      "Marketing", ["Automação", "Email", "Social", "ROI"]),
    Service("5", "API RESTful",
      "Desenvolva APIs robustas e escaláveis seguindo padrões REST e melhores práticas de segurança.",
      "Desenvolvimento", ["REST", "API", "Segurança", "Documentação"]),
    Service("6", "Identidade Visual",
      "Crie identidades visuais marcantes com logotipos, paleta de cores e elementos gráficos únicos.",
      "Design", ["Logo", "Branding", "Cores", "Tipografia"])
  ]

  /** The ids of a catalog, in catalog order. */
  function Ids(catalog: seq<Service>): (r: seq<string>)
    ensures |r| == |catalog| && forall i :: 0 <= i < |catalog| ==> r[i] == catalog[i].id
  {
    seq(|catalog|, i requires 0 <= i < |catalog| => catalog[i].id)
  }

  /** Ids are unique across the catalog, and so are the services themselves. */
  lemma ServicesWellFormed()
    ensures Distinct(Ids(Services))
    ensures Distinct(Services)
    ensures forall s :: s in Services ==> s.category in ServiceCategories
  {
    var ids := Ids(Services);
    assert ids == ["1", "2", "3", "4", "5", "6"];
  }
}
