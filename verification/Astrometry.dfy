/**
 The star-independent astrometry context (iauASTROM) and the SOFA functions that fill it in place:
 iauApcs, iauApio, iauApco and iauAper.
 */
module Astrometry {
  import opened MathLibrary
  import opened Angles
  import opened Vectors
  import opened Rotations

  const DAYSEC := 86400.0
  const DAU := 149597870700.0
  const CMPS := 299792458.0
  const DJ00 := 2451545.0
  const DJY := 365.25

  /** The fields of iauASTROM that iauApcs fills: where the observer is and how it moves. */
  datatype Barycentric = Barycentric(
    pmt: real, eb: Vec, eh: Vec, em: real, v: Vec, bm1: real, bpn: Mat)

  /** The fields of iauASTROM that iauApio fills: the site's meridian and its atmosphere. */
  datatype Local = Local(
    along: real, xpl: real, ypl: real, sphi: real, cphi: real,
    diurab: real, eral: real, refa: real, refb: real)

  /** iauASTROM as a value. Its remaining field, phi, is never used by these functions. */
  datatype Context = Context(bary: Barycentric, local: Local)

  /** Site coordinates, polar motion and TIO locator. */
  datatype Site = Site(elong: real, phi: real, hm: real, xp: real, yp: real, sp: real)

  // ---------- Values stored by the functions ----------

  /** CIRS to apparent [HA, Dec]: the matrix formed by the Rz, Ry, Rx, Rz sequence. */
  function LocalMatrix(m: Libm, theta: real, site: Site): Mat {
    Mul(RotZ(m, site.elong), Mul(RotX(m, -site.yp), Mul(RotY(m, -site.xp), RotZ(m, theta + site.sp))))
  }

  function LocalEra(m: Libm, r: Mat): real {
    if r.r0.x != 0.0 || r.r0.y != 0.0 then m.atan2(r.r0.y, r.r0.x) else 0.0
  }

  function Hypot(m: Libm, a: real, b: real): real {
    m.sqrt(a * a + b * b)
  }

  function LocalXp(m: Libm, r: Mat): real {
    m.atan2(r.r0.z, Hypot(m, r.r0.x, r.r0.y))
  }

  function LocalYp(m: Libm, r: Mat): real {
    if r.r1.z != 0.0 || r.r2.z != 0.0 then -m.atan2(r.r1.z, r.r2.z) else 0.0
  }

  /** iauGd2gce with the WGS84 ellipsoid; the error status of iauGd2gc yields the null vector. */
  function Geocentric(m: Libm, site: Site): Vec {
    var a, f := 6378137.0, 1.0 / 298.257223563;
    var sp, cp := m.sin(site.phi), m.cos(site.phi);
    var w := (1.0 - f) * (1.0 - f);
    var d := cp * cp + w * sp * sp;
    if d <= 0.0 || m.sqrt(d) == 0.0 then ZERO
    else
      var ac := a / m.sqrt(d);
      var r := (ac + site.hm) * cp;
      Vec(r * m.cos(site.elong), r * m.sin(site.elong), (w * ac + site.hm) * sp)
  }

  function PolarMotion(m: Libm, site: Site): Mat {
    Mul(RotX(m, -site.yp), Mul(RotY(m, -site.xp), RotZ(m, site.sp)))
  }

  /** The station in the frame of the TIO meridian, before Earth rotation. */
  function Station(m: Libm, site: Site): Vec {
    Apply(Transpose(PolarMotion(m, site)), Geocentric(m, site))
  }

  /** Earth rotation rate in radians per UT1 second. */
  function EarthRate(m: Libm): real {
    1.00273781191135448 * m.Turn() / DAYSEC
  }

  /** iauPvtob: the station carried round by the Earth. */
  function StationPosVel(m: Libm, theta: real, site: Site): PosVel {
    var p := Apply(RotZ(m, -theta), Station(m, site));
    PosVel(p, Scale(EarthRate(m), Cross(Vec(0.0, 0.0, 1.0), p)))
  }

  function Diurab(m: Libm, vel: Vec): real {
    Hypot(m, vel.x, vel.y) / CMPS
  }

  /** The angles that both functions solve from the rotation matrix. */
  function WithLocalAngles(m: Libm, theta: real, r: Mat, l: Local): Local
    requires m.pi > 0.0
  {
    l.(eral := LocalEra(m, r), xpl := LocalXp(m, r), ypl := LocalYp(m, r),
       along := Anpm(LocalEra(m, r) - theta, m.pi))
  }

  function ApioResult(m: Libm, theta: real, site: Site, refa: real, refb: real): Local
    requires m.pi > 0.0
  {
    var r := LocalMatrix(m, theta, site);
    Local(Anpm(LocalEra(m, r) - theta, m.pi), LocalXp(m, r), LocalYp(m, r),
          m.sin(site.phi), m.cos(site.phi),
          Diurab(m, StationPosVel(m, theta, site).v), LocalEra(m, r), refa, refb)
  }

  function AperResult(theta: real, l: Local): Local {
    l.(eral := theta + l.along)
  }

  /** Metres to au, and metres per second to au per day, component by component. */
  function InAu(p: Vec): Vec {
    Vec(p.x / DAU, p.y / DAU, p.z / DAU)
  }

  function InAuPerDay(p: Vec): Vec {
    Vec(p.x / (DAU / DAYSEC), p.y / (DAU / DAYSEC), p.z / (DAU / DAYSEC))
  }

  /** Light time for 1 au, in days. */
  function LightDays(): real {
    DAU / CMPS / DAYSEC
  }

  function ApcsResult(m: Libm, date1: real, date2: real, pv: PosVel, ebpv: PosVel, ehp: Vec): Barycentric {
    var ph := Add(ehp, InAu(pv.p));
    var v := Scale(LightDays(), Add(ebpv.v, InAuPerDay(pv.v)));
    Barycentric(((date1 - DJ00) + date2) / DJY, Add(ebpv.p, InAu(pv.p)),
                Direction(m, ph), Modulus(m, ph), v, m.sqrt(1.0 - Dot(v, v)), IDENTITY)
  }

  /** iauTrxpv. */
  function Trxpv(r: Mat, pv: PosVel): PosVel {
    PosVel(Apply(Transpose(r), pv.p), Apply(Transpose(r), pv.v))
  }

  /** The observer in the GCRS: the station vector turned back by the celestial matrix. */
  function ObserverInGcrs(m: Libm, theta: real, site: Site, cio: Mat): PosVel {
    Trxpv(cio, StationPosVel(m, theta, site))
  }

  // ---------- Support methods ----------

  /** The five lines that open iauApio and iauApco. */
  method FormLocalMatrix(m: Libm, theta: real, site: Site, r: array2<real>)
    requires IsSquare(r)
    modifies r
    ensures MatAt(r) == LocalMatrix(m, theta, site)
  {
    hide Mul, RotX, RotY, RotZ, MatAt;
    Ir(r);
    Rz(m, theta + site.sp, r);
    MulIdentity(RotZ(m, theta + site.sp));
    Ry(m, -site.xp, r);
    Rx(m, -site.yp, r);
    Rz(m, site.elong, r);
  }

  method Pom00(m: Libm, site: Site, rpom: array2<real>)
    requires IsSquare(rpom)
    modifies rpom
    ensures MatAt(rpom) == PolarMotion(m, site)
  {
    hide Mul, RotX, RotY, RotZ, MatAt;
    Ir(rpom);
    Rz(m, site.sp, rpom);
    MulIdentity(RotZ(m, site.sp));
    Ry(m, -site.xp, rpom);
    Rx(m, -site.yp, rpom);
  }

  /** iauPvtob. The closed forms of sofa/pvtob.c are a rotation about the pole and its rate of change. */
  method Pvtob(m: Libm, theta: real, site: Site) returns (pv: PosVel)
    requires m.Valid()
    ensures pv == StationPosVel(m, theta, site)
  {
    hide Apply, RotZ, Cross, Scale, Geocentric, EarthRate, PolarMotion;
    var rpm := new real[3, 3];
    Pom00(m, site, rpm);
    var xyz := Apply(Transpose(MatAt(rpm)), Geocentric(m, site));
    var x, y, z := xyz.x, xyz.y, xyz.z;
    var s, c, om := m.sin(theta), m.cos(theta), EarthRate(m);
    StationClosedForm(m, theta, xyz);
    pv := PosVel(Vec(c * x - s * y, s * x + c * y, z),
                 Vec(om * (-s * x - c * y), om * (c * x - s * y), 0.0));
  }

  lemma StationClosedForm(m: Libm, theta: real, xyz: Vec)
    requires m.Valid()
    ensures var s, c, om := m.sin(theta), m.cos(theta), EarthRate(m);
            var p := Apply(RotZ(m, -theta), xyz);
            && p == Vec(c * xyz.x - s * xyz.y, s * xyz.x + c * xyz.y, xyz.z)
            && Scale(om, Cross(Vec(0.0, 0.0, 1.0), p)) == Vec(om * (-s * xyz.x - c * xyz.y), om * (c * xyz.x - s * xyz.y), 0.0)
  {
    var s, c, om := m.sin(theta), m.cos(theta), EarthRate(m);
    m.Negated(theta);
    DotOf(c, -s, 0.0, xyz.x, xyz.y, xyz.z);
    DotOf(s, c, 0.0, xyz.x, xyz.y, xyz.z);
    DotOf(0.0, 0.0, 1.0, xyz.x, xyz.y, xyz.z);
    CrossOf(0.0, 0.0, 1.0, c * xyz.x - s * xyz.y, s * xyz.x + c * xyz.y, xyz.z);
  }

  // ---------- The context updated in place ----------

  /** Component `i` of a 3-vector, and the vector with that component replaced. */
  function At(v: Vec, i: nat): real
    requires i < 3
  {
    if i == 0 then v.x else if i == 1 then v.y else v.z
  }

  function With(v: Vec, i: nat, w: real): Vec
    requires i < 3
  {
    if i == 0 then v.(x := w) else if i == 1 then v.(y := w) else v.(z := w)
  }

  class Astrom {
    var pmt: real
    var eb: Vec
    var eh: Vec
    var em: real
    var v: Vec
    var bm1: real
    var bpn: Mat
    var along: real
    var phi: real
    var xpl: real
    var ypl: real
    var sphi: real
    var cphi: real
    var diurab: real
    var eral: real
    var refa: real
    var refb: real

    function Bary(): Barycentric
      reads this
    {
      Barycentric(pmt, eb, eh, em, v, bm1, bpn)
    }

    function LocalFrame(): Local
      reads this
    {
      Local(along, xpl, ypl, sphi, cphi, diurab, eral, refa, refb)
    }

    /** iauAper: only the Earth rotation angle changes. */
    method Aper(theta: real)
      modifies this`eral
      ensures LocalFrame() == AperResult(theta, old(LocalFrame()))
    {
      eral := theta + along;
    }

    /** The lines that iauApio and iauApco share: angles solved from the rotation matrix `r`. */
    method SolveLocalFrame(m: Libm, theta: real, r: array2<real>)
      requires m.pi > 0.0 && IsSquare(r)
      modifies this`eral, this`xpl, this`ypl, this`along
      ensures LocalFrame() == WithLocalAngles(m, theta, MatAt(r), old(LocalFrame()))
    {
      hide Anpm, Hypot;
      var a, b := r[0, 0], r[0, 1];
      var era := if a != 0.0 || b != 0.0 then m.atan2(b, a) else 0.0;
      eral := era;

      a := r[0, 0];
      var c := r[0, 2];
      xpl := m.atan2(c, Hypot(m, a, b));
      a := r[1, 2];
      b := r[2, 2];
      ypl := if a != 0.0 || b != 0.0 then -m.atan2(a, b) else 0.0;

      along := Anpm(era - theta, m.pi);
    }

    /** iauApio: the terrestrial part of the context, CIRS to observed. */
    method Apio(m: Libm, theta: real, site: Site, refa': real, refb': real)
      requires m.Valid()
      modifies this`along, this`xpl, this`ypl, this`sphi, this`cphi, this`diurab, this`eral, this`refa, this`refb
      ensures LocalFrame() == ApioResult(m, theta, site, refa', refb')
    {
      hide LocalMatrix, StationPosVel, LocalEra, LocalXp, LocalYp, Anpm, Hypot;
      var r := new real[3, 3];
      FormLocalMatrix(m, theta, site, r);
      SolveLocalFrame(m, theta, r);

      sphi := m.sin(site.phi);
      cphi := m.cos(site.phi);

      var pv := Pvtob(m, theta, site);
      diurab := Hypot(m, pv.v.x, pv.v.y) / CMPS;

      refa := refa';
      refb := refb';
    }

    /** iauApcs: the barycentric part of the context, ICRS to GCRS, for an observer in space. */
    method Apcs(m: Libm, date1: real, date2: real, pv: PosVel, ebpv: PosVel, ehp: Vec)
      modifies this`pmt, this`eb, this`eh, this`em, this`v, this`bm1, this`bpn
      ensures Bary() == ApcsResult(m, date1, date2, pv, ebpv, ehp)
    {
      hide Modulus, Direction;
      var audms := DAU / DAYSEC;
      var cr := LightDays();
      pmt := ((date1 - DJ00) + date2) / DJY;

      var pb, vb, ph := ZERO, ZERO, ZERO;
      ghost var pb', vb', ph' := Add(ebpv.p, InAu(pv.p)), Add(ebpv.v, InAuPerDay(pv.v)), Add(ehp, InAu(pv.p));
      for i := 0 to 3
        invariant forall k: nat :: k < i ==> At(pb, k) == At(pb', k)
        invariant forall k: nat :: k < i ==> At(vb, k) == At(vb', k)
        invariant forall k: nat :: k < i ==> At(ph, k) == At(ph', k)
      {
        var dp := At(pv.p, i) / DAU;
        var dv := At(pv.v, i) / audms;
        pb := With(pb, i, At(ebpv.p, i) + dp);
        vb := With(vb, i, At(ebpv.v, i) + dv);
        ph := With(ph, i, At(ehp, i) + dp);
      }
      SameComponents(pb, pb');
      SameComponents(vb, vb');
      SameComponents(ph, ph');
      eb := pb;
      em := Modulus(m, ph);
      eh := Direction(m, ph);

      var v2 := 0.0;
      ghost var v' := Scale(cr, vb);
      for i := 0 to 3
        modifies this`v
        invariant forall k: nat :: k < i ==> At(v, k) == At(v', k)
        invariant v2 == PartialDot(v', i)
      {
        var w := At(vb, i) * cr;
        v := With(v, i, w);
        v2 := v2 + w * w;
      }
      SameComponents(v, v');
      assert v2 == Dot(v', v');
      bm1 := m.sqrt(1.0 - v2);
      bpn := IDENTITY;
    }

    /**
     iauApco: the full terrestrial context. It is what iauApio leaves, with the diurnal aberration
     disabled, together with what iauApcs leaves for the station rotated into the GCRS, with the
     celestial-to-intermediate matrix stored.
     */
    method Apco(m: Libm, date1: real, date2: real, ebpv: PosVel, ehp: Vec, x: real, y: real, s: real,
                theta: real, site: Site, refa': real, refb': real)
      requires m.Valid() && InDisc(x, y)
      modifies this`along, this`xpl, this`ypl, this`sphi, this`cphi, this`diurab, this`eral, this`refa, this`refb
      modifies this`pmt, this`eb, this`eh, this`em, this`v, this`bm1, this`bpn
      ensures LocalFrame() == ApioResult(m, theta, site, refa', refb').(diurab := 0.0)
      ensures var cio := C2ixysMatrix(m, x, y, s);
              Bary() == ApcsResult(m, date1, date2, ObserverInGcrs(m, theta, site, cio), ebpv, ehp).(bpn := cio)
    {
      hide InDisc, LocalMatrix, StationPosVel, LocalEra, LocalXp, LocalYp;
      hide Anpm, Diurab, C2ixysMatrix, Apply, Transpose, ApcsResult;
      var r := new real[3, 3];
      FormLocalMatrix(m, theta, site, r);
      SolveLocalFrame(m, theta, r);

      sphi := m.sin(site.phi);
      cphi := m.cos(site.phi);
      refa := refa';
      refb := refb';
      diurab := 0.0;
      assert LocalFrame() == ApioResult(m, theta, site, refa', refb').(diurab := 0.0);
      hide ApioResult, WithLocalAngles;

      C2ixys(m, x, y, s, r);
      var pvc := Pvtob(m, theta, site);
      var pv := Trxpv(MatAt(r), pvc);
      Apcs(m, date1, date2, pv, ebpv, ehp);
      bpn := MatAt(r);
    }
  }

  /** The first `n` terms of v.v. */
  function PartialDot(v: Vec, n: nat): real
    requires n <= 3
  {
    (if n > 0 then v.x * v.x else 0.0) + (if n > 1 then v.y * v.y else 0.0) + (if n > 2 then v.z * v.z else 0.0)
  }

  lemma PartialDotStep(v: Vec, i: nat)
    requires i < 3
    ensures PartialDot(v, i + 1) == PartialDot(v, i) + At(v, i) * At(v, i)
    ensures PartialDot(v, 0) == 0.0 && PartialDot(v, 3) == Dot(v, v)
  {}

  lemma SameComponents(a: Vec, b: Vec)
    requires forall k: nat :: k < 3 ==> At(a, k) == At(b, k)
    ensures a == b
  {
    assert At(a, 0) == At(b, 0) && At(a, 1) == At(b, 1) && At(a, 2) == At(b, 2);
  }
}
