/** The fields that a descriptor lays out suit the report pipeline. */
module PipelineLayout {
  import ReportBits
  import DL = DescriptorLayout
  import RP = ReportPipeline
  import RF = ReportFields

  /** A usage of the pipeline, from what the parser keeps of it. */
  function UsageOf(id: nat, d: DL.Def): RP.Usage {
    RP.Usage(id, d.bitpos, d.size, d.logicalMinimum, d.logicalMaximum)
  }

  /** In a report of whole bytes and less than 65536 bits, the fields of two variable usages do not overlap and lie
      inside the report, as the pipeline's bit fields must. */
  lemma FieldsSuitPipeline(items: seq<DL.Item>, key: DL.Key, u: nat, v: nat)
    requires DL.TotalBits(items, key) < DL.TWO16 && DL.TotalBits(items, key) % 8 == 0 && u != v
    requires var layout := DL.Layout(DL.Parse(items).marks);
             && DL.Has(layout, key, u) && DL.Has(layout, key, v)
             && !layout[key][u].isArray && !layout[key][v].isArray && 1 <= layout[key][u].size <= 32
    ensures var usages := DL.Layout(DL.Parse(items).marks)[key];
            var p, q := UsageOf(key.id, usages[u]), UsageOf(key.id, usages[v]);
            && RF.Inside(p, DL.TotalBits(items, key) / 8)
            && ReportBits.Disjoint(p.bitpos, p.size, q.bitpos, q.size)
  {
    DL.FieldsAreApart(items, key, u, v);
    DL.FieldsAreInside(items, key, u);
  }
}
