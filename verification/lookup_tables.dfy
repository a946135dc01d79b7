/** The two fixed tables of the recommendation engine: a scenario for each of
    five venues, and five bottoming tips for each of six positions. Lookups
    are by exact key; an unknown venue gets the hotel scenario and an unknown
    position the generic tips. */
module LookupTables {
  import opened Wrappers

  /** The scenario record (`ambiente`, `iluminacion`, `musica`, `detalles`). */
  datatype Scenario = Scenario(ambience: string, lighting: string, music: string, details: string)

  /** A row of the scenario table. */
  datatype VenueEntry = VenueEntry(venue: string, scenario: Scenario)

  /** A row of the tips table. */
  datatype TipsEntry = TipsEntry(position: string, tips: seq<string>)

  const HotelScenario := Scenario(
    "Ambiente elegante y privado",
    "Luz tenue con velas o iluminación ambiental suave",
    "Música suave de fondo o silencio íntimo",
    "Aprovecha las comodidades del hotel: ducha juntos antes, usa las toallas suaves, disfruta del espacio amplio")

  /** `escenarios`, in declaration order. */
  const ScenarioTable: seq<VenueEntry> := [
    VenueEntry("Hotel", HotelScenario),
    VenueEntry("Mi casa", Scenario(
      "Ambiente familiar y cómodo",
      "Control total de la iluminación - puedes crear el ambiente perfecto",
      "Tu playlist favorita o música que ambos disfruten",
      "Ventaja de tener todo a mano: lubricante, juguetes, ropa de cama limpia. Puedes preparar el ambiente con anticipación")),
    VenueEntry("Su casa", Scenario(
      "Ambiente íntimo y personal",
      "Pregunta sus preferencias o sugiere luz tenue",
      "Música que ambos disfruten, o déjale elegir",
      "Respeta su espacio, pero no dudes en sugerir mejoras. Lleva tus elementos esenciales si es necesario")),
    VenueEntry("Coche", Scenario(
      "Ambiente espontáneo y excitante",
      "Oscuridad o luz de la calle filtrada",
      "Música del auto o silencio para mayor discreción",
      "Asegúrate de tener espacio suficiente. Busca un lugar seguro y discreto. Considera el clima y la temperatura")),
    VenueEntry("Motel", Scenario(
      "Ambiente privado y sin distracciones",
      "Luz ambiental del motel, generalmente suave",
      "Música del ambiente o lleva tu propia música",
      "Privacidad total. Aprovecha el ambiente diseñado para la intimidad. Usa todas las comodidades disponibles"))]

  /** The own property `escenarios[venue]`, if there is one. */
  function FindScenario(table: seq<VenueEntry>, venue: string): (r: Option<Scenario>)
    ensures r.None? <==> forall i :: 0 <= i < |table| ==> table[i].venue != venue
    ensures r.Some? ==> exists i :: 0 <= i < |table| && table[i].venue == venue && table[i].scenario == r.value
  {
    if |table| == 0 then None
    else if table[0].venue == venue then Some(table[0].scenario)
    else FindScenario(table[1..], venue)
  }

  /** `escenarios[venue] || escenarios['Hotel']`: the table entry of a listed
      venue, and the hotel scenario for any other venue. */
  function ScenarioFor(venue: string): (s: Scenario)
    ensures (forall i :: 0 <= i < |ScenarioTable| ==> ScenarioTable[i].venue != venue) ==> s == HotelScenario
    ensures forall i :: 0 <= i < |ScenarioTable| && ScenarioTable[i].venue == venue ==> s == ScenarioTable[i].scenario
  {
    ScenarioTableKeys();
    match FindScenario(ScenarioTable, venue)
    case Some(s) => s
    case None => HotelScenario
  }

  /** No venue is listed twice. */
  lemma ScenarioTableKeys()
    ensures forall i, j :: 0 <= i < j < |ScenarioTable| ==> ScenarioTable[i].venue != ScenarioTable[j].venue
  {
  }

  /** The hotel scenario is chosen exactly for "Hotel" and for unlisted venues:
      no other row carries it. */
  lemma ScenarioIsHotelIff(venue: string)
    ensures ScenarioFor(venue) == HotelScenario <==>
      venue == "Hotel" || forall i :: 0 <= i < |ScenarioTable| ==> ScenarioTable[i].venue != venue
  {
    forall i | 1 <= i < |ScenarioTable| ensures ScenarioTable[i].scenario != HotelScenario {
      assert |ScenarioTable[i].scenario.ambience| != |HotelScenario.ambience|;
    }
    assert ScenarioTable[0].venue == "Hotel";
  }

  /** The tips used for a position without an entry. */
  const GenericTips: seq<string> := [
    "Relaja completamente tu cuerpo",
    "Comunica tus preferencias y límites",
    "Usa lubricante generosamente",
    "Respira profundamente",
    "Disfruta del momento presente"]

  /** `bottomingTips`, in declaration order. */
  const TipsTable: seq<TipsEntry> := [
    TipsEntry("Misionero", [
      "Usa una almohada debajo de tus caderas para mejor ángulo y comodidad",
      "Relaja completamente los músculos, especialmente los glúteos",
      "Respira profundamente durante la penetración inicial",
      "Comunica tu ritmo y preferencias claramente",
      "Disfruta del contacto visual y la intimidad de esta posición"]),
    TipsEntry("Perrito", [
      "Arquea la espalda suavemente para mejor acceso",
      "Mantén las rodillas cómodamente separadas",
      "Usa lubricante generosamente",
      "Relaja el cuello y los hombros",
      "Esta posición permite mayor profundidad - comunica tus límites"]),
    TipsEntry("Cowgirl", [
      "Tú controlas el ritmo y la profundidad",
      "Comienza lento y aumenta gradualmente",
      "Usa tus muslos para controlar el movimiento",
      "Puedes inclinarte hacia adelante o hacia atrás para variar",
      "Disfruta del control y la sensación de poder"]),
    TipsEntry("Cowgirl inversa", [
      "Excelente para estimulación de la próstata",
      "Controla el ritmo con tus caderas",
      "Mantén el equilibrio usando tus manos",
      "Puedes variar el ángulo moviendo tu cuerpo",
      "Comunica si necesitas ajustar la posición"]),
    TipsEntry("Cucharita", [
      "Posición íntima y cómoda",
      "Perfecta para sesiones más largas",
      "Permite contacto corporal completo",
      "Ideal para comenzar o terminar",
      "Disfruta de la cercanía y el calor corporal"]),
    TipsEntry("De pie", [
      "Requiere buena comunicación y equilibrio",
      "Usa una pared o superficie para apoyo",
      "Puede ser más intenso - comunica tus límites",
      "Ideal para encuentros más espontáneos",
      "Asegúrate de tener buena lubricación"])]

  /** The own property `bottomingTips[position]`, if there is one. */
  function FindTips(table: seq<TipsEntry>, position: string): (r: Option<seq<string>>)
    ensures r.None? <==> forall i :: 0 <= i < |table| ==> table[i].position != position
    ensures r.Some? ==> exists i :: 0 <= i < |table| && table[i].position == position && table[i].tips == r.value
  {
    if |table| == 0 then None
    else if table[0].position == position then Some(table[0].tips)
    else FindTips(table[1..], position)
  }

  /** `bottomingTips[position] || generic`: always five tips; the generic list
      exactly when the position has no row of its own. */
  function TipsFor(position: string): (tips: seq<string>)
    ensures |tips| == 5
    ensures forall i :: 0 <= i < |TipsTable| && TipsTable[i].position == position ==> tips == TipsTable[i].tips
    ensures tips == GenericTips <==> forall i :: 0 <= i < |TipsTable| ==> TipsTable[i].position != position
  {
    TipsTableShape();
    match FindTips(TipsTable, position)
    case Some(t) => t
    case None => GenericTips
  }

  /** Every row holds five tips, none of them the generic list, and no
      position is listed twice. */
  lemma TipsTableShape()
    ensures forall i :: 0 <= i < |TipsTable| ==> |TipsTable[i].tips| == 5 && TipsTable[i].tips != GenericTips
    ensures forall i, j :: 0 <= i < j < |TipsTable| ==> TipsTable[i].position != TipsTable[j].position
  {
    forall i | 0 <= i < |TipsTable| ensures TipsTable[i].tips != GenericTips {
      assert |TipsTable[i].tips[0]| != |GenericTips[0]|;
    }
  }
}
