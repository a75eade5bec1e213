/** The unit-conversion chain of convert_to_energy.py: a frequency in units of
    c/a, with the lattice constant a in microns, to hertz, to a wavelength in
    metres, and to a photon energy in joules and in electronvolts. */
module EnergyConversion {
  import opened Outcome

  /** The script's constants (SI units) and the micron-to-metre factor. */
  const SpeedOfLight: real := 300000000.0
  const PlanckConstant: real := 6.626e-34
  const ElectronCharge: real := 1.6e-19
  const MetresPerMicron: real := 1.0e-6

  datatype Conversion = Conversion(
    frequencyHertz: real,
    wavelengthMetres: real,
    energyJoules: real,
    energyElectronVolts: real)

  /** The four results. A zero lattice constant divides by zero when the
      frequency is computed, and a zero frequency when the wavelength is. */
  function Convert(latticeConstantMicrons: real, frequencyCOverA: real): (res: Result<Conversion>)
    ensures res == Err(DivisionByZero) <==> latticeConstantMicrons == 0.0 || frequencyCOverA == 0.0
    ensures res.Ok? ==>
      res.value.frequencyHertz * (latticeConstantMicrons * MetresPerMicron) == frequencyCOverA * SpeedOfLight
    ensures res.Ok? ==> res.value.wavelengthMetres * res.value.frequencyHertz == SpeedOfLight
    ensures res.Ok? ==>
      res.value.wavelengthMetres * frequencyCOverA == latticeConstantMicrons * MetresPerMicron
    ensures res.Ok? ==> res.value.energyJoules / res.value.frequencyHertz == PlanckConstant
    ensures res.Ok? ==> res.value.energyElectronVolts * ElectronCharge == res.value.energyJoules
  {
    var latticeMetres := latticeConstantMicrons * MetresPerMicron;
    if latticeMetres == 0.0 then Err(DivisionByZero)
    else
      var hertz := frequencyCOverA * (SpeedOfLight / latticeMetres);
      if hertz == 0.0 then Err(DivisionByZero)
      else
        var joules := PlanckConstant * hertz;
        Ok(Conversion(hertz, SpeedOfLight / hertz, joules, joules / ElectronCharge))
  }

  /** A positive lattice constant and frequency give positive results throughout. */
  lemma ConversionPositive(a: real, f: real)
    requires a > 0.0 && f > 0.0
    ensures Convert(a, f).Ok?
    ensures var c := Convert(a, f).value;
      c.frequencyHertz > 0.0 && c.wavelengthMetres > 0.0 &&
      c.energyJoules > 0.0 && c.energyElectronVolts > 0.0
  {
  }

  /** Frequency and both energies are linear in the reduced frequency, and the
      wavelength inversely proportional to it. */
  lemma ConversionLinear(a: real, f: real, k: real)
    requires a != 0.0 && f != 0.0 && k != 0.0
    ensures Convert(a, f).Ok? && Convert(a, k * f).Ok?
    ensures Convert(a, k * f).value.frequencyHertz == k * Convert(a, f).value.frequencyHertz
    ensures Convert(a, k * f).value.wavelengthMetres * k == Convert(a, f).value.wavelengthMetres
    ensures Convert(a, k * f).value.energyJoules == k * Convert(a, f).value.energyJoules
    ensures Convert(a, k * f).value.energyElectronVolts == k * Convert(a, f).value.energyElectronVolts
  {
    var c1, c2 := Convert(a, f).value, Convert(a, k * f).value;
    assert c2.frequencyHertz == k * c1.frequencyHertz;
    assert c2.wavelengthMetres * (k * f) == c1.wavelengthMetres * f;
  }

  /** A frequency of 1 c/a at a lattice constant of 1 micron: 3e14 Hz, a 1 micron
      wavelength, 1.9878e-19 J and 1.242375 eV. */
  lemma OneMicronExample()
    ensures Convert(1.0, 1.0) == Ok(Conversion(3.0e14, 1.0e-6, 1.9878e-19, 1.242375))
  {
  }
}
