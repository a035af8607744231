/**
 * The reference table of electrical formulas (data/formulasData.ts): eleven
 * categories of formulas, the flattened list, and the text search over it.
 */
module Formulas {
  import opened Wrappers
  import Text
  import Seqs

  /** One formula; `necRef` is the optional code reference. */
  datatype Formula = Formula(id: string, name: string, formula: string, description: string, necRef: Option<string>, category: string)

  datatype Category = Category(id: string, title: string, description: string, icon: string, formulas: seq<Formula>)

  /** The table, category by category, in display order. */
  const FormulasData: seq<Category> := [
    OhmsLaw, Power, VoltageDrop, AcFormulas, Reactance, Transformers,
    Circuits, Conversions, Constants, Efficiency, Neutral
  ]

  const OhmsLaw: Category :=
    Category("ohms-law", "Ohm's Law",
             "Fundamental relationships between voltage, current, and resistance",
             "\U{26A1}", [
      Formula("voltage", "Voltage (E)", "E = I \U{00D7} R",
              "Volts = Amps \U{00D7} Ohms", None, "ohms-law"),
      Formula("current", "Current (I)", "I = E / R",
              "Amps = Volts / Ohms", None, "ohms-law"),
      Formula("resistance", "Resistance (R)", "R = E / I",
              "Ohms = Volts / Amps", None, "ohms-law")
    ])

  const Power: Category :=
    Category("power", "Power Formulas",
             "Calculate power in electrical circuits",
             "\U{1F50B}", [
      Formula("power-ei", "Power (P)", "P = E \U{00D7} I",
              "Watts = Volts \U{00D7} Amps", None, "power"),
      Formula("power-i2r", "Power (P)", "P = I\U{00B2} \U{00D7} R",
              "Watts = Amps\U{00B2} \U{00D7} Ohms", None, "power"),
      Formula("power-e2r", "Power (P)", "P = E\U{00B2} / R",
              "Watts = Volts\U{00B2} / Ohms", None, "power"),
      Formula("horsepower", "Horsepower", "1 HP = 746 W",
              "Mechanical power conversion", None, "power"),
      Formula("hp-output", "Horsepower", "HP = Output Watts / 746",
              "Convert watts to horsepower", None, "power")
    ])

  const VoltageDrop: Category :=
    Category("voltage-drop", "Voltage Drop",
             "Calculate voltage drop in conductors",
             "\U{1F4C9}", [
      Formula("vd-single", "Single Phase", "VD = (2 \U{00D7} K \U{00D7} I \U{00D7} D) / Cmil",
              "K=12.9 (Cu), K=21.2 (Al), I=Amps, D=Distance one way", Some("Chapter 9, Table 8"), "voltage-drop"),
      Formula("vd-three", "Three Phase", "VD = (\U{221A}3 \U{00D7} K \U{00D7} I \U{00D7} D) / Cmil",
              "For 3-phase circuits", Some("Chapter 9, Table 8"), "voltage-drop"),
      Formula("cmil-single", "Circular Mils (Single Phase)", "Cmil = (2 \U{00D7} K \U{00D7} I \U{00D7} D) / VD",
              "Calculate required conductor size", None, "voltage-drop"),
      Formula("cmil-three", "Circular Mils (Three Phase)", "Cmil = (\U{221A}3 \U{00D7} K \U{00D7} I \U{00D7} D) / VD",
              "Calculate required conductor size for 3-phase", None, "voltage-drop")
    ])

  const AcFormulas: Category :=
    Category("ac-formulas", "AC Formulas",
             "RMS, peak values, and AC power calculations",
             "\U{3030}\U{FE0F}", [
      Formula("vrms", "RMS Voltage", "Vrms = Vpeak \U{00D7} 0.707",
              "Effective AC voltage", None, "ac-formulas"),
      Formula("irms", "RMS Current", "Irms = Ipeak \U{00D7} 0.707",
              "Effective AC current", None, "ac-formulas"),
      Formula("vpeak", "Peak Voltage", "Vpeak = Vrms \U{00D7} \U{221A}2",
              "Peak AC voltage (\U{221A}2 \U{2248} 1.414)", None, "ac-formulas"),
      Formula("ipeak", "Peak Current", "Ipeak = Irms \U{00D7} \U{221A}2",
              "Peak AC current (\U{221A}2 \U{2248} 1.414)", None, "ac-formulas"),
      Formula("pf", "Power Factor", "PF = Watts / VA",
              "Ratio of real to apparent power", None, "ac-formulas"),
      Formula("va-single", "Apparent Power (Single Phase)", "VA = Volts \U{00D7} Amperes",
              "Or VA = Watts / PF", None, "ac-formulas"),
      Formula("va-three", "Apparent Power (Three Phase)", "VA = Volts \U{00D7} Amperes \U{00D7} \U{221A}3",
              "Three phase apparent power", None, "ac-formulas"),
      Formula("watts-single", "Real Power (Single Phase)", "W = V \U{00D7} I \U{00D7} PF",
              "Single phase real power", None, "ac-formulas"),
      Formula("watts-three", "Real Power (Three Phase)", "W = V \U{00D7} I \U{00D7} PF \U{00D7} \U{221A}3",
              "Three phase real power", None, "ac-formulas")
    ])

  const Reactance: Category :=
    Category("reactance", "Reactance & Impedance",
             "Inductive and capacitive reactance",
             "\U{1F504}", [
      Formula("xl", "Inductive Reactance (XL)", "XL = 2\U{03C0} \U{00D7} f \U{00D7} L",
              "f=frequency (Hz), L=inductance (henrys)", None, "reactance"),
      Formula("xc", "Capacitive Reactance (XC)", "XC = 1 / (2\U{03C0} \U{00D7} f \U{00D7} C)",
              "f=frequency (Hz), C=capacitance (farads)", None, "reactance")
    ])

  const Transformers: Category :=
    Category("transformers", "Transformer Formulas",
             "Transformer calculations and fault current",
             "\U{1F50C}", [
      Formula("xfmr-amps-single", "Secondary Amps (Single Phase)", "I = VA / V",
              "Transformer secondary current", None, "transformers"),
      Formula("xfmr-amps-three", "Secondary Amps (Three Phase)", "I = VA / (V \U{00D7} \U{221A}3)",
              "Three phase transformer current", None, "transformers"),
      Formula("fault-single", "Available Fault (Single Phase)", "If = VA / (V \U{00D7} Z%)",
              "Z% = transformer impedance percentage", None, "transformers"),
      Formula("fault-three", "Available Fault (Three Phase)", "If = VA / (V \U{00D7} \U{221A}3 \U{00D7} Z%)",
              "Three phase fault current", None, "transformers"),
      Formula("delta-line-amps", "Delta Line Amperes", "Iline = Iphase \U{00D7} \U{221A}3",
              "Delta 4-wire configuration", None, "transformers"),
      Formula("delta-high-leg", "Delta High Leg Voltage", "Vhigh-leg = Vphase \U{00D7} 0.5 \U{00D7} \U{221A}3",
              "Line to ground voltage on high leg", None, "transformers"),
      Formula("wye-line-volts", "Wye Line Volts", "Vline = Vphase \U{00D7} \U{221A}3",
              "Wye configuration line voltage", None, "transformers"),
      Formula("wye-line-amps", "Wye Line Amperes", "Iline = Iphase",
              "Line current equals phase current in wye", None, "transformers")
    ])

  const Circuits: Category :=
    Category("circuits", "Series & Parallel Circuits",
             "Resistance calculations for circuit configurations",
             "\U{1F517}", [
      Formula("series-r", "Series Resistance", "RT = R1 + R2 + R3 + ...",
              "Total resistance in series", None, "circuits"),
      Formula("parallel-r", "Parallel Resistance", "1/RT = 1/R1 + 1/R2 + 1/R3 + ...",
              "Total resistance always less than smallest resistor", None, "circuits")
    ])

  const Conversions: Category :=
    Category("conversions", "Unit Conversions",
             "Common electrical and measurement conversions",
             "\U{1F504}", [
      Formula("temp-c", "Celsius", "\U{00B0}C = (\U{00B0}F - 32) / 1.8",
              "Fahrenheit to Celsius", None, "conversions"),
      Formula("temp-f", "Fahrenheit", "\U{00B0}F = (\U{00B0}C \U{00D7} 1.8) + 32",
              "Celsius to Fahrenheit", None, "conversions"),
      Formula("inch-cm", "Centimeters", "cm = inches \U{00D7} 2.54",
              "Inches to centimeters", None, "conversions"),
      Formula("cm-inch", "Inches", "inches = cm / 2.54",
              "Centimeters to inches", None, "conversions"),
      Formula("inch-mm", "Millimeters", "mm = inches \U{00D7} 25.4",
              "Inches to millimeters", None, "conversions"),
      Formula("meter-inch", "Meters to Inches", "inches = meters \U{00D7} 39.37",
              "Meter conversion", None, "conversions"),
      Formula("km-mile", "Kilometers to Miles", "miles = km \U{00D7} 0.6213",
              "Kilometer conversion", None, "conversions"),
      Formula("mile-feet", "Mile", "1 mile = 5280 ft = 1760 yd = 1609 m",
              "Mile equivalents", None, "conversions"),
      Formula("yard-meter", "Yard", "1 yard = 0.9144 meters",
              "Yard to meter", None, "conversions")
    ])

  const Constants: Category :=
    Category("constants", "NEC Constants & Values",
             "Important constants and typical values",
             "\U{1F4CA}", [
      Formula("pi", "Pi (\U{03C0})", "\U{03C0} \U{2248} 3.142",
              "Mathematical constant", None, "constants"),
      Formula("sqrt2", "Square Root of 2", "\U{221A}2 \U{2248} 1.414",
              "Used in AC calculations", None, "constants"),
      Formula("sqrt3", "Square Root of 3", "\U{221A}3 \U{2248} 1.732",
              "Used in three-phase calculations", None, "constants"),
      Formula("k-copper", "K Constant (Copper)", "K = 12.9 \U{03A9}",
              "At 75\U{00B0}C for voltage drop calculations", None, "constants"),
      Formula("k-aluminum", "K Constant (Aluminum)", "K = 21.2 \U{03A9}",
              "At 75\U{00B0}C for voltage drop calculations", None, "constants"),
      Formula("busbar-cu", "Busbar Ampacity (Copper)", "1000 A per sq.in",
              "Typical copper busbar rating", None, "constants"),
      Formula("busbar-al", "Busbar Ampacity (Aluminum)", "700 A per sq.in",
              "Typical aluminum busbar rating", None, "constants"),
      Formula("sound-speed", "Speed of Sound", "1128 fps = 769 mph",
              "At sea level", None, "constants"),
      Formula("circle-area", "Area of Circle", "A = \U{03C0} \U{00D7} r\U{00B2}",
              "r = radius", None, "constants"),
      Formula("coil-length", "Coiled Wire Length", "L = D \U{00D7} N \U{00D7} \U{03C0}",
              "D=avg diameter, N=number of coils", None, "constants")
    ])

  const Efficiency: Category :=
    Category("efficiency", "Efficiency & Performance",
             "Efficiency and performance calculations",
             "\U{1F4C8}", [
      Formula("efficiency-pct", "Efficiency (Percent)", "Eff% = (Output / Input) \U{00D7} 100",
              "Percentage efficiency", None, "efficiency"),
      Formula("efficiency", "Efficiency", "Eff = Output / Input",
              "Decimal efficiency", None, "efficiency"),
      Formula("input", "Input", "Input = Output / Efficiency",
              "Calculate required input", None, "efficiency"),
      Formula("output", "Output", "Output = Input \U{00D7} Efficiency",
              "Calculate output power", None, "efficiency")
    ])

  const Neutral: Category :=
    Category("neutral", "Neutral Current (Wye)",
             "Calculate neutral current in wye systems",
             "\U{26A1}", [
      Formula("neutral-current", "Neutral Current", "In = \U{221A}[(IL1\U{00B2} + IL2\U{00B2} + IL3\U{00B2}) - ((IL1\U{00D7}IL2) + (IL2\U{00D7}IL3) + (IL3\U{00D7}IL1))]",
              "Unbalanced wye system neutral current", None, "neutral")
    ])

  /** The total number of formulas over a list of categories. */
  function SizeSum(cats: seq<Category>): (n: nat)
  {
    if |cats| == 0 then 0 else |cats[0].formulas| + SizeSum(cats[1..])
  }

  /** `flatMap(category => category.formulas)`: every category's formulas, in order. */
  function Flatten(cats: seq<Category>): (r: seq<Formula>)
    ensures |r| == SizeSum(cats)
    ensures |cats| > 0 ==> r[..|cats[0].formulas|] == cats[0].formulas
  {
    if |cats| == 0 then [] else cats[0].formulas + Flatten(cats[1..])
  }

  /** A formula is in the flattened list exactly when some category holds it. */
  lemma {:induction false} FlattenMembership(cats: seq<Category>, f: Formula)
    ensures f in Flatten(cats) <==> exists i :: 0 <= i < |cats| && f in cats[i].formulas
  {
    if |cats| > 0 {
      FlattenMembership(cats[1..], f);
      if f in Flatten(cats[1..]) {
        var i :| 0 <= i < |cats[1..]| && f in cats[1..][i].formulas;
        assert f in cats[i + 1].formulas;
      }
      if exists i :: 0 <= i < |cats| && f in cats[i].formulas {
        var i :| 0 <= i < |cats| && f in cats[i].formulas;
        if i > 0 {
          assert f in cats[1..][i - 1].formulas;
        }
      }
    }
  }

  /** `getAllFormulas`. */
  function GetAllFormulas(): (r: seq<Formula>)
    ensures |r| == SizeSum(FormulasData)
  {
    Flatten(FormulasData)
  }

  /** Every formula of the category names the category's id. */
  predicate CategoryConsistent(c: Category) {
    forall k :: 0 <= k < |c.formulas| ==> c.formulas[k].category == c.id
  }

  /** Every formula is filed under the category whose id it names. */
  predicate CategoriesConsistent(cats: seq<Category>) {
    forall i :: 0 <= i < |cats| ==> CategoryConsistent(cats[i])
  }

  /** The table as written files every formula under its own category. */
  lemma TableConsistent()
    ensures CategoriesConsistent(FormulasData)
  {
    assert CategoryConsistent(OhmsLaw);
    assert CategoryConsistent(Power);
    assert CategoryConsistent(VoltageDrop);
    assert CategoryConsistent(AcFormulas);
    assert CategoryConsistent(Reactance);
    assert CategoryConsistent(Transformers);
    assert CategoryConsistent(Circuits);
    assert CategoryConsistent(Conversions);
    assert CategoryConsistent(Constants);
    assert CategoryConsistent(Efficiency);
    assert CategoryConsistent(Neutral);
  }

  /** Every formula of the flattened list names a category of the table. */
  lemma AllFormulasHaveKnownCategory(f: Formula)
    requires f in GetAllFormulas()
    ensures exists i :: 0 <= i < |FormulasData| && FormulasData[i].id == f.category
  {
    FlattenMembership(FormulasData, f);
    TableConsistent();
    var i :| 0 <= i < |FormulasData| && f in FormulasData[i].formulas;
    assert CategoryConsistent(FormulasData[i]);
    var k :| 0 <= k < |FormulasData[i].formulas| && FormulasData[i].formulas[k] == f;
  }

  /** A formula matches a lower-cased query through its name, formula or description. */
  predicate FormulaMatches(f: Formula, lowerQuery: string) {
    Text.Includes(Text.Lower(f.name), lowerQuery)
    || Text.Includes(Text.Lower(f.formula), lowerQuery)
    || Text.Includes(Text.Lower(f.description), lowerQuery)
  }

  /** `searchFormulas`: the formulas matching the lower-cased query, in table order. */
  function SearchFormulas(query: string): (r: seq<Formula>)
    ensures Seqs.SubsequenceOf(r, GetAllFormulas())
    ensures forall f :: f in r <==> f in GetAllFormulas() && FormulaMatches(f, Text.Lower(query))
  {
    var q := Text.Lower(query);
    var r := Seqs.Filter(GetAllFormulas(), f => FormulaMatches(f, q));
    forall f ensures f in r <==> f in GetAllFormulas() && FormulaMatches(f, q) {
      Seqs.FilterMembership(GetAllFormulas(), f => FormulaMatches(f, q), f);
    }
    r
  }

  /** The empty query returns the whole list. */
  lemma EmptyQueryReturnsAll()
    ensures SearchFormulas("") == GetAllFormulas()
  {
    forall f | f in GetAllFormulas()
      ensures FormulaMatches(f, Text.Lower(""))
    {
      Text.IncludesEmpty(Text.Lower(f.name));
    }
    Seqs.FilterKeepsAll(GetAllFormulas(), f => FormulaMatches(f, Text.Lower("")));
  }

  /** The id, code reference and category take no part in the search. */
  lemma SearchIgnoresReferenceAndCategory(f: Formula, g: Formula, lowerQuery: string)
    requires f.name == g.name && f.formula == g.formula && f.description == g.description
    ensures FormulaMatches(f, lowerQuery) <==> FormulaMatches(g, lowerQuery)
  {
  }
}
